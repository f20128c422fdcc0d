/**
The service as a state machine over session opens, closes and messages, and
what each session receives over a whole run of it.
*/
module Sessions {
  import opened Events
  import opened Book
  import opened Invariant
  import opened Bounds
  import opened Bytes
  import opened Codec
  import opened Wire

  datatype Input = Open(id: int) | Close(id: int) | Message(session: int, ts: int, frame: seq<byte>)

  // One offer of a frame to a session.
  datatype Delivery = Delivery(session: int, frame: seq<byte>)

  // `ids` is the broadcast order; `alive` turns false when an event cannot be
  // encoded, which stops the process.
  datatype State = State(book: Book, open: set<int>, ids: seq<int>, alive: bool)

  const START := State(EMPTY, {}, [], true)

  // --- The steps -------------------------------------------------------------

  // Drops the first occurrence.
  function Forget(ids: seq<int>, id: int): seq<int> {
    if ids == [] then []
    else if ids[0] == id then ids[1..]
    else [ids[0]] + Forget(ids[1..], id)
  }

  predicate Public(ev: Event) {
    ev.Trade? || ev.BookUpdate?
  }

  function SendTo(open: set<int>, id: int, frame: seq<byte>): seq<Delivery> {
    if id in open then [Delivery(id, frame)] else []
  }

  function Broadcast(open: set<int>, ids: seq<int>, frame: seq<byte>): seq<Delivery> {
    if ids == [] then [] else Broadcast(open, ids[..|ids| - 1], frame) + SendTo(open, ids[|ids| - 1], frame)
  }

  function Send(open: set<int>, ids: seq<int>, ev: Event, frame: seq<byte>): seq<Delivery> {
    if Public(ev) then Broadcast(open, ids, frame) else SendTo(open, ev.owner, frame)
  }

  datatype Routed = Routed(sent: seq<Delivery>, ok: bool)

  // Encodes and sends the events in order; the first that cannot be encoded ends it.
  function Route(open: set<int>, ids: seq<int>, events: seq<Event>, ts: int): Routed {
    if events == [] then Routed([], true)
    else
      var last := events[|events| - 1];
      var before := Route(open, ids, events[..|events| - 1], ts);
      if !before.ok then before
      else
        match EventFrame(last, ts)
        case Some(frame) => Routed(before.sent + Send(open, ids, last, frame), true)
        case None => Routed(before.sent, false)
  }

  datatype Served = Served(state: State, sent: seq<Delivery>)

  function Serve(st: State, input: Input): Served {
    match input
    case Open(id) => Served(st.(open := st.open + {id}, ids := st.ids + [id]), [])
    case Close(id) => Served(st.(open := st.open - {id}, ids := Forget(st.ids, id)), [])
    case Message(session, ts, frame) =>
      match Ingress(frame, session)
      case None => Served(st, [])
      case Some(cmd) =>
        var out := Step(st.book, cmd);
        var r := Route(st.open, st.ids, out.events, ts);
        Served(st.(book := out.book, alive := r.ok), r.sent)
  }

  // A stopped process takes no further input.
  function ServeAll(start: State, inputs: seq<Input>): Served {
    if inputs == [] then Served(start, [])
    else
      var before := ServeAll(start, inputs[..|inputs| - 1]);
      if !before.state.alive then before
      else
        var last := Serve(before.state, inputs[|inputs| - 1]);
        Served(last.state, before.sent + last.sent)
  }

  // --- What a session should receive, from the inputs alone ------------------

  function Commands(inputs: seq<Input>): seq<Command> {
    if inputs == [] then []
    else
      var last := inputs[|inputs| - 1];
      Commands(inputs[..|inputs| - 1])
      + if last.Message? && Ingress(last.frame, last.session).Some? then [Ingress(last.frame, last.session).value] else []
  }

  predicate IsOpen(start: State, inputs: seq<Input>, s: int) {
    if inputs == [] then s in start.open
    else
      match inputs[|inputs| - 1]
      case Open(id) => id == s || IsOpen(start, inputs[..|inputs| - 1], s)
      case Close(id) => id != s && IsOpen(start, inputs[..|inputs| - 1], s)
      case Message(_, _, _) => IsOpen(start, inputs[..|inputs| - 1], s)
  }

  // How often a session stands in the broadcast order: opens less closes.
  function Copies(start: State, inputs: seq<Input>, s: int): nat {
    if inputs == [] then Count(start.ids, s)
    else
      var before := Copies(start, inputs[..|inputs| - 1], s);
      match inputs[|inputs| - 1]
      case Open(id) => if id == s then before + 1 else before
      case Close(id) => if id == s && before > 0 then before - 1 else before
      case Message(_, _, _) => before
  }

  // The engine events of the last input, given what came before it.
  function Batch(start: State, inputs: seq<Input>): seq<Event>
    requires inputs != []
  {
    var last := inputs[|inputs| - 1];
    if last.Message? && Ingress(last.frame, last.session).Some? then
      Step(Run(start.book, Commands(inputs[..|inputs| - 1])).book, Ingress(last.frame, last.session).value).events
    else []
  }

  datatype Notice = Notice(event: Event, ts: int)

  // What one event means for one session: a public one comes k times.
  function Share(ev: Event, ts: int, s: int, k: nat): seq<Notice> {
    seq(if Public(ev) then k else if ev.owner == s then 1 else 0, i => Notice(ev, ts))
  }

  // The events of one batch that concern a session.
  function Visible(events: seq<Event>, ts: int, s: int, k: nat): seq<Notice> {
    if events == [] then []
    else
      Visible(events[..|events| - 1], ts, s, k) + Share(events[|events| - 1], ts, s, k)
  }

  function Stamp(input: Input): int {
    if input.Message? then input.ts else 0
  }

  // What a session should receive while open: its own reports and all public
  // events, each once.
  function Due(start: State, inputs: seq<Input>, s: int): seq<Notice> {
    if inputs == [] then []
    else
      var before := inputs[..|inputs| - 1];
      Due(start, before, s) + if IsOpen(start, before, s) then Visible(Batch(start, inputs), Stamp(inputs[|inputs| - 1]), s, 1) else []
  }

  // The same with public events once per copy of the session.
  function DueByCopies(start: State, inputs: seq<Input>, s: int): seq<Notice> {
    if inputs == [] then []
    else
      var before := inputs[..|inputs| - 1];
      DueByCopies(start, before, s)
      + if IsOpen(start, before, s) then Visible(Batch(start, inputs), Stamp(inputs[|inputs| - 1]), s, Copies(start, before, s)) else []
  }

  // The frames offered to one session, in order.
  function Received(sent: seq<Delivery>, s: int): seq<seq<byte>> {
    if sent == [] then []
    else
      var last := sent[|sent| - 1];
      Received(sent[..|sent| - 1], s) + if last.session == s then [last.frame] else []
  }

  // Frame by frame, the encodings of the notices.
  ghost predicate Carry(frames: seq<seq<byte>>, notices: seq<Notice>) {
    && |frames| == |notices|
    && forall i :: 0 <= i < |frames| ==> Some(frames[i]) == EventFrame(notices[i].event, notices[i].ts)
  }

  // --- State from inputs -----------------------------------------------------

  function Count(ids: seq<int>, s: int): nat {
    if ids == [] then 0 else Count(ids[..|ids| - 1], s) + if ids[|ids| - 1] == s then 1 else 0
  }

  lemma {:induction false} CountSnoc(ids: seq<int>, id: int, s: int)
    ensures Count(ids + [id], s) == Count(ids, s) + if id == s then 1 else 0
  {
    assert (ids + [id])[..|ids|] == ids;
  }

  lemma {:induction false} CountHead(ids: seq<int>, s: int)
    requires ids != []
    ensures Count(ids, s) == (if ids[0] == s then 1 else 0) + Count(ids[1..], s)
  {
    if |ids| > 1 {
      var n := |ids| - 1;
      CountHead(ids[..n], s);
      assert ids[..n][1..] == ids[1..][..n - 1];
    }
  }

  lemma {:induction false} CountForget(ids: seq<int>, id: int, s: int)
    ensures Count(Forget(ids, id), s) == if id == s && Count(ids, s) > 0 then Count(ids, s) - 1 else Count(ids, s)
  {
    if ids != [] {
      CountHead(ids, s);
      if ids[0] != id {
        CountForget(ids[1..], id, s);
        CountHead(Forget(ids, id), s);
        assert Forget(ids, id)[1..] == Forget(ids[1..], id);
      }
    }
  }

  lemma {:induction false} ServeLast(start: State, inputs: seq<Input>)
    requires inputs != [] && ServeAll(start, inputs).state.alive
    ensures var before := ServeAll(start, inputs[..|inputs| - 1]);
            && before.state.alive
            && ServeAll(start, inputs).state == Serve(before.state, inputs[|inputs| - 1]).state
  {
    hide Serve;
  }

  lemma {:induction false} BookFromInputs(start: State, inputs: seq<Input>)
    requires ServeAll(start, inputs).state.alive
    ensures ServeAll(start, inputs).state.book == Run(start.book, Commands(inputs)).book
  {
    if inputs != [] {
      ServeLast(start, inputs);
      hide Step, Run, Ingress, Route, Forget, ServeAll;
      var n := |inputs| - 1;
      var cmds, last := Commands(inputs[..n]), inputs[n];
      BookFromInputs(start, inputs[..n]);
      if last.Message? && Ingress(last.frame, last.session).Some? {
        RunOne(start.book, cmds, Ingress(last.frame, last.session).value);
      } else {
        assert Commands(inputs) == cmds;
      }
    }
  }

  lemma {:induction false} OpenFromInputs(start: State, inputs: seq<Input>, s: int)
    requires ServeAll(start, inputs).state.alive
    ensures s in ServeAll(start, inputs).state.open <==> IsOpen(start, inputs, s)
  {
    if inputs != [] {
      ServeLast(start, inputs);
      hide Step, Ingress, Route, Forget, ServeAll;
      OpenFromInputs(start, inputs[..|inputs| - 1], s);
    }
  }

  lemma {:induction false} CopiesFromInputs(start: State, inputs: seq<Input>, s: int)
    requires ServeAll(start, inputs).state.alive
    ensures Count(ServeAll(start, inputs).state.ids, s) == Copies(start, inputs, s)
  {
    if inputs != [] {
      ServeLast(start, inputs);
      hide Step, Ingress, Route, Forget, Count, ServeAll;
      var n := |inputs| - 1;
      CopiesFromInputs(start, inputs[..n], s);
      var ids, last := ServeAll(start, inputs[..n]).state.ids, inputs[n];
      if last.Open? {
        CountSnoc(ids, last.id, s);
      } else if last.Close? {
        CountForget(ids, last.id, s);
      }
    }
  }

  // While it runs, the service's state is determined by the inputs: the book by
  // the commands alone, whatever sessions come and go.
  lemma {:induction false} StateFromInputs(start: State, inputs: seq<Input>, s: int)
    requires ServeAll(start, inputs).state.alive
    ensures var st := ServeAll(start, inputs).state;
            && st.book == Run(start.book, Commands(inputs)).book
            && (s in st.open <==> IsOpen(start, inputs, s))
            && Count(st.ids, s) == Copies(start, inputs, s)
  {
    BookFromInputs(start, inputs);
    OpenFromInputs(start, inputs, s);
    CopiesFromInputs(start, inputs, s);
  }

  lemma {:induction false} RunOne(b: Book, cmds: seq<Command>, cmd: Command)
    ensures Run(b, cmds + [cmd]).book == Step(Run(b, cmds).book, cmd).book
    ensures Run(b, cmds + [cmd]).events == Run(b, cmds).events + Step(Run(b, cmds).book, cmd).events
  {
    assert (cmds + [cmd])[..|cmds|] == cmds;
  }

  // --- One batch -------------------------------------------------------------

  lemma {:induction false} ReceivedConcat(a: seq<Delivery>, b: seq<Delivery>, s: int)
    ensures Received(a + b, s) == Received(a, s) + Received(b, s)
  {
    if b == [] {
      assert a + b == a;
    } else {
      var n := |b| - 1;
      ReceivedConcat(a, b[..n], s);
      assert (a + b)[..|a| + n] == a + b[..n];
    }
  }

  lemma {:induction false} ReceivedOne(open: set<int>, id: int, frame: seq<byte>, s: int)
    ensures Received(SendTo(open, id, frame), s) == if id == s && id in open then [frame] else []
  {
    if id in open {
      assert [Delivery(id, frame)][..0] == [];
    }
  }

  function Times(frame: seq<byte>, k: nat): seq<seq<byte>> {
    seq(k, i => frame)
  }

  lemma {:induction false} TimesMore(frame: seq<byte>, k: nat)
    ensures Times(frame, k) + [frame] == Times(frame, k + 1) && Times(frame, 0) == []
  {
  }

  lemma {:induction false} ReceivedBroadcast(open: set<int>, ids: seq<int>, frame: seq<byte>, s: int)
    ensures Received(Broadcast(open, ids, frame), s) == if s in open then Times(frame, Count(ids, s)) else []
  {
    TimesMore(frame, 0);
    if ids != [] {
      hide Received, Times, SendTo;
      var n := |ids| - 1;
      ReceivedBroadcast(open, ids[..n], frame, s);
      ReceivedConcat(Broadcast(open, ids[..n], frame), SendTo(open, ids[n], frame), s);
      ReceivedOne(open, ids[n], frame, s);
      TimesMore(frame, Count(ids[..n], s));
    }
  }

  lemma {:induction false} SendShare(open: set<int>, ids: seq<int>, ev: Event, ts: int, s: int)
    requires EventFrame(ev, ts).Some?
    ensures Carry(Received(Send(open, ids, ev, EventFrame(ev, ts).value), s), if s in open then Share(ev, ts, s, Count(ids, s)) else [])
  {
    hide EventFrame, Broadcast, Count, Received;
    var frame := EventFrame(ev, ts).value;
    if Public(ev) {
      ReceivedBroadcast(open, ids, frame, s);
    } else {
      ReceivedOne(open, ev.owner, frame, s);
    }
  }

  lemma {:induction false} CarryConcat(a: seq<seq<byte>>, b: seq<seq<byte>>, x: seq<Notice>, y: seq<Notice>)
    requires Carry(a, x) && Carry(b, y)
    ensures Carry(a + b, x + y)
  {
    hide EventFrame;
  }

  // A session gets exactly its share of a batch, or nothing if it is not open.
  lemma {:induction false} RouteShare(open: set<int>, ids: seq<int>, events: seq<Event>, ts: int, s: int)
    requires Route(open, ids, events, ts).ok
    ensures Carry(Received(Route(open, ids, events, ts).sent, s),
                  if s in open then Visible(events, ts, s, Count(ids, s)) else [])
  {
    if events != [] {
      hide EventFrame, Send, Count, Received, Share, Carry;
      var n, k := |events| - 1, Count(ids, s);
      RouteShare(open, ids, events[..n], ts, s);
      var ev := events[n];
      var before, frame := Route(open, ids, events[..n], ts).sent, EventFrame(ev, ts).value;
      var now := Send(open, ids, ev, frame);
      ReceivedConcat(before, now, s);
      SendShare(open, ids, ev, ts, s);
      CarryConcat(Received(before, s), Received(now, s),
                  if s in open then Visible(events[..n], ts, s, k) else [], if s in open then Share(ev, ts, s, k) else []);
    }
  }

  function Publics(events: seq<Event>): nat {
    if events == [] then 0 else Publics(events[..|events| - 1]) + if Public(events[|events| - 1]) then 1 else 0
  }

  lemma {:induction false} OneMore(k: int, p: int)
    ensures k * (p + 1) == k * p + k
  {
  }

  lemma {:induction false} VisibleLength(events: seq<Event>, ts: int, s: int, k: nat)
    requires k > 0
    ensures |Visible(events, ts, s, k)| == |Visible(events, ts, s, 1)| + (k - 1) * Publics(events)
    ensures Publics(events) == 0 ==> Visible(events, ts, s, k) == Visible(events, ts, s, 1)
  {
    if events != [] {
      var n := |events| - 1;
      VisibleLength(events[..n], ts, s, k);
      assert |Share(events[n], ts, s, k)| == |Share(events[n], ts, s, 1)| + if Public(events[n]) then k - 1 else 0;
      assert !Public(events[n]) ==> Share(events[n], ts, s, k) == Share(events[n], ts, s, 1);
      hide Share;
      OneMore(k - 1, Publics(events[..n]));
    }
  }

  // --- Whole runs ------------------------------------------------------------

  // Over any interleaving, a session receives while open its own reports once
  // each and every public event once per copy, in engine order, and no more.
  lemma {:induction false} SessionReceives(start: State, inputs: seq<Input>, s: int)
    requires ServeAll(start, inputs).state.alive
    ensures Carry(Received(ServeAll(start, inputs).sent, s), DueByCopies(start, inputs, s))
  {
    if inputs != [] {
      var n := |inputs| - 1;
      SessionReceives(start, inputs[..n], s);
      StateFromInputs(start, inputs[..n], s);
      var before := ServeAll(start, inputs[..n]);
      var last := Serve(before.state, inputs[n]);
      ReceivedConcat(before.sent, last.sent, s);
      if inputs[n].Message? && Ingress(inputs[n].frame, inputs[n].session).Some? {
        RouteShare(before.state.open, before.state.ids, Batch(start, inputs), inputs[n].ts, s);
      }
    }
  }

  // The owner has an order of that id at rest.
  ghost predicate RestsFor(s: seq<Order>, id: int, owner: int) {
    exists i :: 0 <= i < |s| && s[i].id == id && s[i].owner == owner
  }

  // Told from the book before the command: a trade or a level update will follow.
  ghost predicate Publishes(b: Book, cmd: Command) {
    match cmd
    case NewOrder(_, _, _, _, _) => Acceptable(cmd)
    case Cancel(id, owner) => RestsFor(b.bids, id, owner) || RestsFor(b.asks, id, owner)
  }

  lemma {:induction false} PublicsIfAny(events: seq<Event>, i: nat)
    requires i < |events| && Public(events[i])
    ensures Publics(events) > 0
  {
    if i < |events| - 1 {
      PublicsIfAny(events[..|events| - 1], i);
    }
  }

  lemma {:induction false} OrderPublishes(b: Book, cmd: Command)
    requires Acceptable(cmd)
    ensures Publics(Step(b, cmd).events) > 0
  {
    var m, taker := MatchOf(b, cmd), Taker(b, cmd);
    var fills, ups := AllFillEvents(taker, m.fills), UpdateEvents(b, cmd);
    var events := Step(b, cmd).events;
    assert events == [AcceptedEvent(taker)] + fills + ups;
    if m.fills != [] {
      assert events[1] == fills[0] && Public(fills[0]);
      PublicsIfAny(events, 1);
    } else {
      assert m.left == cmd.qty && |ups| > 0 && ups[|ups| - 1].BookUpdate?;
      assert events[|events| - 1] == ups[|ups| - 1];
      PublicsIfAny(events, |events| - 1);
    }
  }

  lemma {:induction false} FindsOwner(s: seq<Order>, id: int, owner: int)
    requires forall i, j :: 0 <= i < j < |s| ==> s[i].id != s[j].id
    ensures RestsFor(s, id, owner) <==> Find(s, id) < |s| && s[Find(s, id)].owner == owner
  {
  }

  lemma {:induction false} CancelPublishes(b: Book, id: int, owner: int)
    requires WellFormed(b)
    ensures Publics(CancelOrder(b, id, owner).events) > 0 <==> RestsFor(b.bids, id, owner) || RestsFor(b.asks, id, owner)
  {
    FindsOwner(b.bids, id, owner);
    FindsOwner(b.asks, id, owner);
    var events := CancelOrder(b, id, owner).events;
    if |events| == 2 {
      PublicsIfAny(events, 1);
    } else {
      assert events[..0] == [];
    }
  }

  lemma {:induction false} PublicsFromBook(b: Book, cmd: Command)
    requires WellFormed(b)
    ensures Publics(Step(b, cmd).events) > 0 <==> Publishes(b, cmd)
  {
    if Acceptable(cmd) {
      OrderPublishes(b, cmd);
    } else if cmd.Cancel? {
      CancelPublishes(b, cmd.orderId, cmd.owner);
    } else {
      assert Step(b, cmd).events[..0] == [];
    }
  }

  // The last input brings a command that publishes.
  ghost predicate PublishesLast(start: State, inputs: seq<Input>)
    requires inputs != []
  {
    var n := |inputs| - 1;
    && inputs[n].Message? && Ingress(inputs[n].frame, inputs[n].session).Some?
    && Publishes(Run(start.book, Commands(inputs[..n])).book, Ingress(inputs[n].frame, inputs[n].session).value)
  }

  lemma {:induction false} BatchPublishes(start: State, inputs: seq<Input>)
    requires inputs != [] && WellFormed(start.book)
    ensures Publics(Batch(start, inputs)) > 0 <==> PublishesLast(start, inputs)
  {
    hide Run, Step, Publishes, Ingress;
    var n := |inputs| - 1;
    if inputs[n].Message? && Ingress(inputs[n].frame, inputs[n].session).Some? {
      RunKeepsWellFormed(start.book, Commands(inputs[..n]));
      PublicsFromBook(Run(start.book, Commands(inputs[..n])).book, Ingress(inputs[n].frame, inputs[n].session).value);
    }
  }

  // A command that publishes comes while the session stands twice in the
  // broadcast order.
  ghost predicate Doubled(start: State, inputs: seq<Input>, k: nat, s: int)
    requires k < |inputs|
  {
    IsOpen(start, inputs[..k], s) && Copies(start, inputs[..k], s) > 1 && PublishesLast(start, inputs[..k + 1])
  }

  // A state in which every open session is registered for broadcasts.
  ghost predicate Sound(start: State) {
    WellFormed(start.book) && forall s :: s in start.open ==> Count(start.ids, s) > 0
  }

  lemma {:induction false} OpenHasCopy(start: State, inputs: seq<Input>, s: int)
    requires IsOpen(start, inputs, s) && (s in start.open ==> Count(start.ids, s) > 0)
    ensures Copies(start, inputs, s) > 0
  {
    if inputs == [] {
      return;
    }
    var n := |inputs| - 1;
    if IsOpen(start, inputs[..n], s) {
      OpenHasCopy(start, inputs[..n], s);
    }
  }

  lemma {:induction false} Product(k: int, p: int)
    requires k >= 0 && p >= 0
    ensures k * p >= 0 && (k * p == 0 <==> k == 0 || p == 0)
  {
    if k > 0 && p > 0 {
      assert k * p >= p;
    }
  }

  // What the last input adds, by copies and once.
  function DueLast(start: State, inputs: seq<Input>, s: int, k: nat): seq<Notice>
    requires inputs != []
  {
    if IsOpen(start, inputs[..|inputs| - 1], s) then Visible(Batch(start, inputs), Stamp(inputs[|inputs| - 1]), s, k) else []
  }

  lemma {:induction false} DueSnoc(start: State, inputs: seq<Input>, s: int)
    requires inputs != []
    ensures var before := inputs[..|inputs| - 1];
            && Due(start, inputs, s) == Due(start, before, s) + DueLast(start, inputs, s, 1)
            && DueByCopies(start, inputs, s) == DueByCopies(start, before, s) + DueLast(start, inputs, s, Copies(start, before, s))
  {
    hide IsOpen, Copies, Batch, Visible, Stamp;
  }

  lemma {:induction false} VisibleCopies(events: seq<Event>, ts: int, s: int, k: nat)
    requires k > 0
    ensures var once, byCopies := Visible(events, ts, s, 1), Visible(events, ts, s, k);
            && |byCopies| >= |once|
            && (|byCopies| == |once| <==> k == 1 || Publics(events) == 0)
            && (k == 1 || Publics(events) == 0 ==> byCopies == once)
  {
    VisibleLength(events, ts, s, k);
    Product(k - 1, Publics(events));
  }

  lemma {:induction false} DoubledLast(start: State, inputs: seq<Input>, s: int)
    requires inputs != [] && WellFormed(start.book)
    ensures var n := |inputs| - 1;
            Doubled(start, inputs, n, s)
            <==> IsOpen(start, inputs[..n], s) && Copies(start, inputs[..n], s) > 1 && Publics(Batch(start, inputs)) > 0
  {
    BatchPublishes(start, inputs);
    hide IsOpen, Copies, Batch, Publics, PublishesLast, WellFormed;
    assert inputs[..|inputs| - 1 + 1] == inputs;
  }

  lemma {:induction false} DueLastLength(start: State, inputs: seq<Input>, s: int)
    requires inputs != [] && Sound(start)
    ensures var n := |inputs| - 1;
            var once, byCopies := DueLast(start, inputs, s, 1), DueLast(start, inputs, s, Copies(start, inputs[..n], s));
            && |byCopies| >= |once|
            && (|byCopies| == |once| <==> !Doubled(start, inputs, n, s))
            && (!Doubled(start, inputs, n, s) ==> byCopies == once)
  {
    assert s in start.open ==> Count(start.ids, s) > 0;
    hide IsOpen, Copies, Count, Batch, Visible, Publics, Doubled, Sound, WellFormed, Stamp;
    var n := |inputs| - 1;
    assert WellFormed(start.book) by {
      SoundBook(start);
    }
    DoubledLast(start, inputs, s);
    if IsOpen(start, inputs[..n], s) {
      OpenHasCopy(start, inputs[..n], s);
      VisibleCopies(Batch(start, inputs), Stamp(inputs[n]), s, Copies(start, inputs[..n], s));
    }
  }

  lemma {:induction false} SoundBook(start: State)
    requires Sound(start)
    ensures WellFormed(start.book)
  {
  }

  ghost predicate NeverDoubled(start: State, inputs: seq<Input>, s: int) {
    forall k :: 0 <= k < |inputs| ==> !Doubled(start, inputs, k, s)
  }

  lemma {:induction false} NeverDoubledSnoc(start: State, inputs: seq<Input>, s: int)
    requires inputs != []
    ensures NeverDoubled(start, inputs, s)
       <==> NeverDoubled(start, inputs[..|inputs| - 1], s) && !Doubled(start, inputs, |inputs| - 1, s)
  {
    hide Doubled;
    var n := |inputs| - 1;
    assert NeverDoubled(start, inputs, s) ==> !Doubled(start, inputs, n, s);
    forall k | 0 <= k < n
      ensures Doubled(start, inputs[..n], k, s) == Doubled(start, inputs, k, s)
    {
      DoubledBefore(start, inputs, k, s);
    }
  }

  lemma {:induction false} DoubledBefore(start: State, inputs: seq<Input>, k: nat, s: int)
    requires k < |inputs| - 1
    ensures Doubled(start, inputs[..|inputs| - 1], k, s) == Doubled(start, inputs, k, s)
  {
    hide IsOpen, Copies, PublishesLast;
    var n := |inputs| - 1;
    assert inputs[..n][..k] == inputs[..k] && inputs[..n][..k + 1] == inputs[..k + 1];
  }

  // What is due by copies exceeds what is due exactly when some step is doubled.
  lemma {:induction false} Excess(start: State, inputs: seq<Input>, s: int)
    requires Sound(start)
    ensures |DueByCopies(start, inputs, s)| >= |Due(start, inputs, s)|
    ensures |DueByCopies(start, inputs, s)| == |Due(start, inputs, s)| <==> NeverDoubled(start, inputs, s)
    ensures NeverDoubled(start, inputs, s) ==> DueByCopies(start, inputs, s) == Due(start, inputs, s)
  {
    if inputs == [] {
      return;
    }
    hide Due, DueByCopies, DueLast, Doubled, NeverDoubled, Sound, Copies;
    Excess(start, inputs[..|inputs| - 1], s);
    DueSnoc(start, inputs, s);
    DueLastLength(start, inputs, s);
    NeverDoubledSnoc(start, inputs, s);
  }

  // Egress is a projection of the engine's output, if and only if no accepted
  // order and no successful cancel came while the session stood twice in the
  // broadcast order.
  lemma {:induction false} EgressIsProjection(start: State, inputs: seq<Input>, s: int)
    requires Sound(start) && ServeAll(start, inputs).state.alive
    ensures Carry(Received(ServeAll(start, inputs).sent, s), Due(start, inputs, s))
       <==> NeverDoubled(start, inputs, s)
  {
    hide Due, DueByCopies, Received, NeverDoubled, ServeAll, Sound;
    SessionReceives(start, inputs, s);
    Excess(start, inputs, s);
  }

  // Every open is of a session that is not open already.
  ghost predicate FreshOpens(start: State, inputs: seq<Input>) {
    forall k :: 0 <= k < |inputs| && inputs[k].Open? ==> Copies(start, inputs[..k], inputs[k].id) == 0
  }

  lemma {:induction false} FreshSingle(start: State, inputs: seq<Input>, s: int)
    requires FreshOpens(start, inputs) && Count(start.ids, s) <= 1
    ensures Copies(start, inputs, s) <= 1
  {
    if inputs != [] {
      var n := |inputs| - 1;
      assert forall k :: 0 <= k < n ==> inputs[..n][k] == inputs[k] && inputs[..n][..k] == inputs[..k];
      FreshSingle(start, inputs[..n], s);
    }
  }

  // With fresh session ids every client's listener is called with exactly what
  // is due to it: its own reports and all trades and level updates emitted while
  // it is open, once each and in engine order.
  lemma {:induction false} ClientSees(start: State, inputs: seq<Input>, s: int)
    requires Sound(start) && ServeAll(start, inputs).state.alive && FreshOpens(start, inputs) && Count(start.ids, s) <= 1
    ensures var frames, due := Received(ServeAll(start, inputs).sent, s), Due(start, inputs, s);
            && |frames| == |due|
            && forall i :: 0 <= i < |due| ==>
                 && Callback(frames[i]) == Some(MessageOf(due[i].event, due[i].ts))
                 && Tells(Callback(frames[i]).value, due[i].event, due[i].ts)
  {
    forall k | 0 <= k < |inputs|
      ensures !Doubled(start, inputs, k, s)
    {
      assert forall j :: 0 <= j < k ==> inputs[..k][j] == inputs[j] && inputs[..k][..j] == inputs[..j];
      FreshSingle(start, inputs[..k], s);
    }
    EgressIsProjection(start, inputs, s);
    hide Callback, EventFrame, MessageOf, Tells, Due, ServeAll;
    var frames, due := Received(ServeAll(start, inputs).sent, s), Due(start, inputs, s);
    forall i | 0 <= i < |due|
      ensures Callback(frames[i]) == Some(MessageOf(due[i].event, due[i].ts))
      ensures Tells(Callback(frames[i]).value, due[i].event, due[i].ts)
    {
      EventEncodes(due[i].event, due[i].ts);
      EventArrives(due[i].event, due[i].ts);
    }
  }

  // --- The broadcast order ----------------------------------------------------

  lemma {:induction false} ForgetAt(ids: seq<int>, id: int, i: nat)
    requires i < |ids| && ids[i] == id && forall j :: 0 <= j < i ==> ids[j] != id
    ensures Forget(ids, id) == ids[..i] + ids[i + 1..]
  {
    if i > 0 {
      ForgetAt(ids[1..], id, i - 1);
    }
  }

  lemma {:induction false} ForgetNone(ids: seq<int>, id: int)
    requires forall j :: 0 <= j < |ids| ==> ids[j] != id
    ensures Forget(ids, id) == ids
  {
    if ids != [] {
      ForgetNone(ids[1..], id);
    }
  }

  function OpenAmong(open: set<int>, ids: seq<int>): nat {
    if ids == [] then 0 else OpenAmong(open, ids[..|ids| - 1]) + if ids[|ids| - 1] in open then 1 else 0
  }

  // A broadcast goes to every open entry of the order, in that order.
  lemma {:induction false} BroadcastAt(open: set<int>, ids: seq<int>, frame: seq<byte>, p: nat)
    requires p < |ids| && ids[p] in open
    ensures |Broadcast(open, ids, frame)| == OpenAmong(open, ids)
    ensures OpenAmong(open, ids[..p]) < |Broadcast(open, ids, frame)|
    ensures Broadcast(open, ids, frame)[OpenAmong(open, ids[..p])] == Delivery(ids[p], frame)
  {
    BroadcastSize(open, ids, frame);
    var n := |ids| - 1;
    if p < n {
      BroadcastAt(open, ids[..n], frame, p);
      assert ids[..n][..p] == ids[..p];
    } else {
      BroadcastSize(open, ids[..n], frame);
    }
  }

  lemma {:induction false} BroadcastSize(open: set<int>, ids: seq<int>, frame: seq<byte>)
    ensures |Broadcast(open, ids, frame)| == OpenAmong(open, ids)
  {
    if ids != [] {
      BroadcastSize(open, ids[..|ids| - 1], frame);
    }
  }

  // Where in the log a session was last opened.
  function OpenedAt(inputs: seq<Input>, s: int): nat {
    if inputs == [] then 0
    else if inputs[|inputs| - 1] == Open(s) then |inputs| - 1
    else OpenedAt(inputs[..|inputs| - 1], s)
  }

  lemma {:induction false} OpenedBefore(inputs: seq<Input>, s: int)
    requires inputs != []
    ensures OpenedAt(inputs, s) < |inputs|
  {
    if |inputs| > 1 {
      OpenedBefore(inputs[..|inputs| - 1], s);
    }
  }

  ghost predicate InOpenOrder(inputs: seq<Input>, ids: seq<int>) {
    forall p, q :: 0 <= p < q < |ids| ==> OpenedAt(inputs, ids[p]) < OpenedAt(inputs, ids[q])
  }

  lemma {:induction false} CountMember(ids: seq<int>, p: nat)
    requires p < |ids|
    ensures Count(ids, ids[p]) > 0
  {
    if p < |ids| - 1 {
      CountMember(ids[..|ids| - 1], p);
    }
  }

  // With fresh session ids, broadcasts reach the sessions in the order in which
  // they were opened.
  lemma {:induction false} BroadcastInOpenOrder(inputs: seq<Input>)
    requires FreshOpens(START, inputs) && ServeAll(START, inputs).state.alive
    ensures InOpenOrder(inputs, ServeAll(START, inputs).state.ids)
  {
    if inputs == [] {
      return;
    }
    var n := |inputs| - 1;
    var before, last := inputs[..n], inputs[n];
    assert FreshOpens(START, before) by {
      hide Copies;
      assert forall k :: 0 <= k < n ==> before[k] == inputs[k] && before[..k] == inputs[..k];
    }
    ServeLast(START, inputs);
    var ids := ServeAll(START, before).state.ids;
    assert last.Open? ==> Copies(START, before, last.id) == 0;
    IdsLast(ServeAll(START, before).state, last);
    hide ServeAll, Serve, FreshOpens, Copies, OpenedAt, InOpenOrder, Forget;
    BroadcastInOpenOrder(before);
    if last.Open? {
      OpenLast(inputs, ids);
    } else {
      SameOrder(inputs, ids);
      if last.Close? {
        ForgetKeepsOrder(inputs, ids, last.id);
      }
    }
  }

  lemma {:induction false} IdsLast(st: State, last: Input)
    ensures Serve(st, last).state.ids
         == if last.Open? then st.ids + [last.id] else if last.Close? then Forget(st.ids, last.id) else st.ids
  {
    hide Ingress, Step, Route, Forget;
  }

  lemma {:induction false} SameOrder(inputs: seq<Input>, ids: seq<int>)
    requires inputs != [] && !inputs[|inputs| - 1].Open? && InOpenOrder(inputs[..|inputs| - 1], ids)
    ensures InOpenOrder(inputs, ids)
  {
    assert forall s :: OpenedAt(inputs, s) == OpenedAt(inputs[..|inputs| - 1], s);
    hide OpenedAt;
  }

  lemma {:induction false} ForgetKeepsOrder(inputs: seq<Input>, ids: seq<int>, id: int)
    requires InOpenOrder(inputs, ids)
    ensures InOpenOrder(inputs, Forget(ids, id))
  {
    hide OpenedAt, Forget;
    if i :| 0 <= i < |ids| && ids[i] == id && forall j :: 0 <= j < i ==> ids[j] != id {
      ForgetAt(ids, id, i);
    } else {
      NotIn(ids, id);
      ForgetNone(ids, id);
    }
  }

  lemma {:induction false} NotIn(ids: seq<int>, id: int)
    requires !exists i :: 0 <= i < |ids| && ids[i] == id && forall j :: 0 <= j < i ==> ids[j] != id
    ensures forall j :: 0 <= j < |ids| ==> ids[j] != id
  {
    for k := 0 to |ids|
      invariant forall j :: 0 <= j < k ==> ids[j] != id
    {
    }
  }

  lemma {:induction false} OpenLast(inputs: seq<Input>, ids: seq<int>)
    requires inputs != [] && inputs[|inputs| - 1].Open?
    requires var before := inputs[..|inputs| - 1];
             && ServeAll(START, before).state.alive && ids == ServeAll(START, before).state.ids
             && InOpenOrder(before, ids) && Copies(START, before, inputs[|inputs| - 1].id) == 0
    ensures InOpenOrder(inputs, ids + [inputs[|inputs| - 1].id])
  {
    var n := |inputs| - 1;
    var before, id := inputs[..n], inputs[n].id;
    CopiesFromInputs(START, before, id);
    assert inputs[n] == Open(id) && OpenedAt(inputs, id) == n;
    assert before == [] ==> ids == [];
    forall p | 0 <= p < |ids|
      ensures ids[p] != id && OpenedAt(inputs, ids[p]) == OpenedAt(before, ids[p]) < n
    {
      CountMember(ids, p);
      OpenedBefore(before, ids[p]);
    }
    hide OpenedAt;
  }

  // --- Staying alive ---------------------------------------------------------

  lemma {:induction false} FitSnoc(events: seq<Event>)
    requires events != []
    ensures EventsFit(events) <==> EventsFit(events[..|events| - 1]) && EventFits(events[|events| - 1])
  {
    hide EventFits;
    var n := |events| - 1;
    assert forall i :: 0 <= i < n ==> events[..n][i] == events[i];
  }

  lemma {:induction false} RouteOk(open: set<int>, ids: seq<int>, events: seq<Event>, ts: int)
    ensures Route(open, ids, events, ts).ok <==> events == [] || (EventsFit(events) && Field64(ts))
  {
    if events != [] {
      hide EventFits, EventsFit, EventFrame, Send;
      var n := |events| - 1;
      RouteOk(open, ids, events[..n], ts);
      EventEncodes(events[n], ts);
      FitSnoc(events);
      if n == 0 {
        assert EventsFit(events[..0]) by {
          NoneFit(events[..0]);
        }
      }
    }
  }

  lemma {:induction false} NoneFit(events: seq<Event>)
    requires events == []
    ensures EventsFit(events)
  {
  }

  ghost predicate Encodable(start: State, inputs: seq<Input>, k: nat)
    requires k < |inputs|
  {
    Batch(start, inputs[..k + 1]) == [] || (EventsFit(Batch(start, inputs[..k + 1])) && Field64(Stamp(inputs[k])))
  }

  lemma {:induction false} EncodableBefore(start: State, inputs: seq<Input>, k: nat)
    requires k < |inputs| - 1
    ensures Encodable(start, inputs[..|inputs| - 1], k) == Encodable(start, inputs, k)
  {
    hide Batch, EventsFit;
    assert inputs[..|inputs| - 1][..k + 1] == inputs[..k + 1];
  }

  lemma {:induction false} AliveStep(start: State, inputs: seq<Input>)
    requires inputs != [] && ServeAll(start, inputs[..|inputs| - 1]).state.alive
    ensures ServeAll(start, inputs).state.alive <==> Encodable(start, inputs, |inputs| - 1)
  {
    var n := |inputs| - 1;
    var before, last := ServeAll(start, inputs[..n]).state, inputs[n];
    BookFromInputs(start, inputs[..n]);
    assert inputs[..n + 1] == inputs;
    hide EventsFit, Step, Run, Ingress, Route, Commands, Forget;
    if last.Message? && Ingress(last.frame, last.session).Some? {
      RouteOk(before.open, before.ids, Batch(start, inputs), last.ts);
    }
  }

  ghost predicate AllEncodable(start: State, inputs: seq<Input>) {
    forall k :: 0 <= k < |inputs| ==> Encodable(start, inputs, k)
  }

  lemma {:induction false} EncodableSnoc(start: State, inputs: seq<Input>)
    requires inputs != []
    ensures AllEncodable(start, inputs) <==> AllEncodable(start, inputs[..|inputs| - 1]) && Encodable(start, inputs, |inputs| - 1)
  {
    hide Encodable;
    var n := |inputs| - 1;
    assert AllEncodable(start, inputs) ==> Encodable(start, inputs, n);
    forall k | 0 <= k < n
      ensures Encodable(start, inputs[..n], k) == Encodable(start, inputs, k)
    {
      EncodableBefore(start, inputs, k);
    }
  }

  // The service survives a run exactly when every batch can be encoded.
  lemma {:induction false} AliveIffEncodable(start: State, inputs: seq<Input>)
    requires start.alive
    ensures ServeAll(start, inputs).state.alive <==> AllEncodable(start, inputs)
  {
    if inputs == [] {
      return;
    }
    hide Encodable, AllEncodable, ServeAll;
    var n := |inputs| - 1;
    AliveIffEncodable(start, inputs[..n]);
    EncodableSnoc(start, inputs);
    if ServeAll(start, inputs[..n]).state.alive {
      AliveStep(start, inputs);
    } else if ServeAll(start, inputs).state.alive {
      ServeLast(start, inputs);
    }
  }

  // --- Which inputs keep it alive ---------------------------------------------

  predicate BringsCommand(input: Input) {
    input.Message? && Ingress(input.frame, input.session).Some?
  }

  // Every message that brings a command has a timestamp in range.
  ghost predicate Timely(inputs: seq<Input>) {
    forall k :: 0 <= k < |inputs| && BringsCommand(inputs[k]) ==> Field64(inputs[k].ts)
  }

  lemma {:induction false} TimelySnoc(inputs: seq<Input>)
    requires inputs != []
    ensures var n := |inputs| - 1;
            Timely(inputs) <==> Timely(inputs[..n]) && (BringsCommand(inputs[n]) ==> Field64(inputs[n].ts))
  {
    hide BringsCommand;
    var n := |inputs| - 1;
    assert forall k :: 0 <= k < n ==> inputs[..n][k] == inputs[k];
  }

  // Every command is answered with at least one event.
  lemma {:induction false} StepSpeaks(b: Book, cmd: Command)
    ensures Step(b, cmd).events != []
  {
    hide UpdateEvents, AllFillEvents, Placed, Without, Qty;
  }

  lemma {:induction false} BatchSpeaks(start: State, inputs: seq<Input>)
    requires inputs != []
    ensures Batch(start, inputs) != [] <==> BringsCommand(inputs[|inputs| - 1])
  {
    hide Run, Step, Ingress;
    var n := |inputs| - 1;
    if BringsCommand(inputs[n]) {
      StepSpeaks(Run(start.book, Commands(inputs[..n])).book, Ingress(inputs[n].frame, inputs[n].session).value);
    }
  }

  // The engine's output over a run is the batches in order.
  lemma {:induction false} BatchIsTail(start: State, inputs: seq<Input>)
    requires inputs != []
    ensures Run(start.book, Commands(inputs)).events == Run(start.book, Commands(inputs[..|inputs| - 1])).events + Batch(start, inputs)
  {
    hide Step, Run, Ingress;
    var n := |inputs| - 1;
    var cmds, last := Commands(inputs[..n]), inputs[n];
    if BringsCommand(last) {
      RunOne(start.book, cmds, Ingress(last.frame, last.session).value);
    } else {
      assert Commands(inputs) == cmds;
    }
  }

  lemma {:induction false} FitConcat(a: seq<Event>, b: seq<Event>)
    ensures EventsFit(a + b) <==> EventsFit(a) && EventsFit(b)
  {
    hide EventFits;
    assert forall i :: 0 <= i < |b| ==> (a + b)[|a| + i] == b[i];
    assert forall i :: 0 <= i < |a| ==> (a + b)[i] == a[i];
  }

  lemma {:induction false} EncodableIsFit(start: State, inputs: seq<Input>)
    ensures AllEncodable(start, inputs) <==> Timely(inputs) && EventsFit(Run(start.book, Commands(inputs)).events)
  {
    if inputs == [] {
      return;
    }
    var n := |inputs| - 1;
    assert inputs[..n + 1] == inputs;
    BatchSpeaks(start, inputs);
    assert BringsCommand(inputs[n]) ==> Stamp(inputs[n]) == inputs[n].ts;
    assert Batch(start, inputs) == [] ==> EventsFit(Batch(start, inputs));
    hide BringsCommand, Batch, Run, Commands, EventsFit, Timely, AllEncodable, Stamp;
    EncodableIsFit(start, inputs[..n]);
    EncodableSnoc(start, inputs);
    TimelySnoc(inputs);
    BatchIsTail(start, inputs);
    FitConcat(Run(start.book, Commands(inputs[..n])).events, Batch(start, inputs));
  }

  lemma {:induction false} CommandsFit(inputs: seq<Input>)
    ensures forall k :: 0 <= k < |Commands(inputs)| ==> NumbersFit(Commands(inputs)[k])
  {
    if inputs != [] {
      hide Ingress, NumbersFit;
      var n := |inputs| - 1;
      CommandsFit(inputs[..n]);
      if BringsCommand(inputs[n]) {
        IngressFits(inputs[n].frame, inputs[n].session);
      }
    }
  }

  // Within the budget of the 64-bit range the service survives a run, if and only
  // if every order it accepts has a side the schema knows and every message that
  // brings a command has a timestamp in range.
  lemma {:induction false} AliveIffKnown(start: State, inputs: seq<Input>)
    requires start.alive && WellFormed(start.book) && KnownBook(start.book)
    requires WithinBudget(start.book, Commands(inputs))
    ensures ServeAll(start, inputs).state.alive <==> AcceptsKnown(Commands(inputs)) && Timely(inputs)
  {
    hide ServeAll, AllEncodable, Timely, EventsFit, Run, Commands, WithinBudget, KnownBook, WellFormed, AcceptsKnown;
    AliveIffEncodable(start, inputs);
    EncodableIsFit(start, inputs);
    RunEncodable(start.book, Commands(inputs));
  }

  // From the start only the quantities and the count can run out: every number
  // that gets in is in range.
  lemma {:induction false} AliveFromStart(inputs: seq<Input>)
    requires WantedAll(Commands(inputs)) <= MAX64 && AcceptedCount(Commands(inputs)) < MAX64
    ensures ServeAll(START, inputs).state.alive <==> AcceptsKnown(Commands(inputs)) && Timely(inputs)
  {
    CommandsFit(inputs);
    assert WithinBudget(EMPTY, Commands(inputs)) by {
      hide Commands, WantedAll, AcceptedCount, NumbersFit;
    }
    hide ServeAll, Timely, Commands, AcceptsKnown;
    AliveIffKnown(START, inputs);
  }

  lemma {:induction false} OneMessage(session: int, frame: seq<byte>, cmd: Command)
    requires Ingress(frame, session) == Some(cmd)
    ensures Commands([Message(session, 0, frame)]) == [cmd]
    ensures WantedAll([cmd]) == Wanted(cmd) && AcceptedCount([cmd]) == if Acceptable(cmd) then 1 else 0
  {
    hide Ingress;
    assert [Message(session, 0, frame)][..0] == [] && [cmd][..0] == [];
  }

  // A new order with side code 5 from a newer version stops the service.
  lemma {:induction false} StopsAtUnknownSide()
    ensures var frame := VersionedRequest(NewOrder(1, 7, 5, 100, 5), 2);
            !ServeAll(START, [Message(7, 0, frame)]).state.alive
  {
    var cmd := NewOrder(1, 7, 5, 100, 5);
    var frame := VersionedRequest(cmd, 2);
    Spans();
    NewerRequestArrives(cmd, 2);
    hide VersionedRequest, Ingress, ServeAll, Commands, WantedAll, AcceptedCount, Timely;
    OneMessage(7, frame, cmd);
    assert [cmd][0] == cmd && !AcceptsKnown([cmd]);
    AliveFromStart([Message(7, 0, frame)]);
  }

  lemma {:induction false} OpenOnce(inputs: seq<Input>, s: int)
    ensures var more := inputs + [Open(s)];
            && Commands(more) == Commands(inputs) && IsOpen(START, more, s)
            && Copies(START, more, s) == Copies(START, inputs, s) + 1
            && Due(START, more, s) == Due(START, inputs, s) && DueByCopies(START, more, s) == DueByCopies(START, inputs, s)
  {
    var more, n := inputs + [Open(s)], |inputs|;
    assert more[..n] == inputs && more[n] == Open(s);
    assert Batch(START, more) == [] && Visible([], 0, s, 1) == [] && Visible([], 0, s, Copies(START, inputs, s)) == [];
  }

  lemma {:induction false} TwiceOpen(s: int)
    ensures var opens := [Open(s), Open(s)];
            && Commands(opens) == [] && IsOpen(START, opens, s) && Copies(START, opens, s) == 2
            && Due(START, opens, s) == [] && DueByCopies(START, opens, s) == []
  {
    OpenOnce([], s);
    OpenOnce([Open(s)], s);
    assert [] + [Open(s)] == [Open(s)] && [Open(s)] + [Open(s)] == [Open(s), Open(s)];
  }

  lemma {:induction false} FirstBuy(cmd: Command)
    requires Acceptable(cmd) && cmd.side == BUY
    ensures var out := Step(EMPTY, cmd);
            out.events == [AcceptedEvent(Taker(EMPTY, cmd)), BookUpdate(BUY, cmd.price, cmd.qty)]
  {
    var o := Taker(EMPTY, cmd);
    assert MatchOf(EMPTY, cmd) == Matched([], [], cmd.qty) && Insert([], o) == [o];
    assert Placed(EMPTY, cmd).bids == [o] && [o][1..] == [] && Qty([o], AtPrice(cmd.price)) == cmd.qty;
  }

  lemma {:induction false} VisiblePair(mine: Event, all: Event, s: int, k: nat)
    requires !Public(mine) && mine.owner == s && Public(all)
    ensures Visible([mine, all], 0, s, k) == [Notice(mine, 0)] + seq(k, i => Notice(all, 0))
  {
    assert [mine, all][..1] == [mine] && [mine][..0] == [];
    assert Visible([mine], 0, s, k) == Visible([], 0, s, k) + Share(mine, 0, s, k);
    assert Share(mine, 0, s, k) == [Notice(mine, 0)];
  }

  // A session opened twice: its own report comes once, the level update twice.
  lemma {:induction false} DoubledExample()
    ensures var cmd := NewOrder(1, 7, BUY, 100, 5);
            && Request(cmd).Some?
            && var inputs := [Open(7), Open(7), Message(7, 0, Request(cmd).value)];
               var frames := Received(ServeAll(START, inputs).sent, 7);
               && !Carry(frames, Due(START, inputs, 7))
               && |frames| == 3 && frames[1] == frames[2] && Callback(frames[1]) == Some(DepthReport(BUY, 100, 5, 0))
  {
    var cmd, update := NewOrder(1, 7, BUY, 100, 5), BookUpdate(BUY, 100, 5);
    RequestArrives(cmd);
    hide Request, Ingress, ServeAll, Received, Due, Tells, Callback, EventFrame, Carry;
    DoubledFrames(Request(cmd).value, cmd);
    EventArrives(update, 0);
  }

  lemma {:induction false} DoubledFrames(frame: seq<byte>, cmd: Command)
    requires Ingress(frame, 7) == Some(cmd) && Acceptable(cmd) && cmd.side == BUY && cmd.owner == 7 && NumbersFit(cmd)
    ensures var inputs := [Open(7), Open(7), Message(7, 0, frame)];
            var frames := Received(ServeAll(START, inputs).sent, 7);
            && !Carry(frames, Due(START, inputs, 7))
            && |frames| == 3 && frames[1] == frames[2]
            && Some(frames[1]) == EventFrame(BookUpdate(BUY, cmd.price, cmd.qty), 0)
  {
    hide Ingress, ServeAll, Received, Due, DueByCopies, EventFrame, Acceptable, NumbersFit;
    DoubledDue(frame, cmd);
    SessionReceives(START, [Open(7), Open(7), Message(7, 0, frame)], 7);
  }

  lemma {:induction false} DoubledDue(frame: seq<byte>, cmd: Command)
    requires Ingress(frame, 7) == Some(cmd) && Acceptable(cmd) && cmd.side == BUY && cmd.owner == 7 && NumbersFit(cmd)
    ensures var inputs := [Open(7), Open(7), Message(7, 0, frame)];
            var accepted, update := AcceptedEvent(Taker(EMPTY, cmd)), BookUpdate(BUY, cmd.price, cmd.qty);
            && ServeAll(START, inputs).state.alive
            && Due(START, inputs, 7) == [Notice(accepted, 0), Notice(update, 0)]
            && DueByCopies(START, inputs, 7) == [Notice(accepted, 0), Notice(update, 0), Notice(update, 0)]
  {
    hide Ingress, ServeAll, Step;
    var opens, inputs := [Open(7), Open(7)], [Open(7), Open(7), Message(7, 0, frame)];
    var accepted, update := AcceptedEvent(Taker(EMPTY, cmd)), BookUpdate(BUY, cmd.price, cmd.qty);
    assert inputs[..2] == opens;
    TwiceOpen(7);
    FirstBuy(cmd);
    assert Batch(START, inputs) == [accepted, update];
    VisiblePair(accepted, update, 7, 1);
    VisiblePair(accepted, update, 7, 2);
    assert Commands(inputs) == [] + [cmd] == [cmd] && [cmd][..0] == [];
    assert WantedAll([cmd]) == cmd.qty && AcceptedCount([cmd]) == 1;
    hide Commands, Due, DueByCopies, IsOpen, Copies, Batch;
    AliveFromStart(inputs);
  }
}
