/**
End to end: the depth a client rebuilds from the frames its session receives is
the depth of the service's book.
*/
module ClientView {
  import opened Events
  import opened Book
  import opened Invariant
  import opened DepthFeed
  import opened Bytes
  import opened Codec
  import opened Wire
  import opened Sessions

  // One callback: a level update replaces the level, everything else is no depth.
  function Hear(feed: Feed, m: Message): Feed {
    if m.DepthReport? then Apply(feed, BookUpdate(m.side, m.price, m.aggregateQty)) else feed
  }

  // The depth after a sequence of frames.
  function HearAll(frames: seq<seq<byte>>): Feed {
    if frames == [] then map[]
    else
      var before := HearAll(frames[..|frames| - 1]);
      match Callback(frames[|frames| - 1])
      case Some(m) => Hear(before, m)
      case None => before
  }

  function Noticed(feed: Feed, due: seq<Notice>): Feed {
    if due == [] then feed else Apply(Noticed(feed, due[..|due| - 1]), due[|due| - 1].event)
  }

  lemma {:induction false} NoticedConcat(feed: Feed, a: seq<Notice>, b: seq<Notice>)
    ensures Noticed(feed, a + b) == Noticed(Noticed(feed, a), b)
  {
    if b == [] {
      assert a + b == a;
    } else {
      var n := |b| - 1;
      NoticedConcat(feed, a, b[..n]);
      assert (a + b)[..|a| + n] == a + b[..n];
    }
  }

  lemma {:induction false} HearsNotices(frames: seq<seq<byte>>, due: seq<Notice>)
    requires |frames| == |due|
    requires forall i :: 0 <= i < |due| ==> Callback(frames[i]) == Some(MessageOf(due[i].event, due[i].ts))
    ensures HearAll(frames) == Noticed(map[], due)
  {
    hide Callback;
    if due != [] {
      var n := |due| - 1;
      HearsNotices(frames[..n], due[..n]);
    }
  }

  lemma {:induction false} FoldSnoc(feed: Feed, events: seq<Event>)
    requires events != []
    ensures Fold(feed, events) == Apply(Fold(feed, events[..|events| - 1]), events[|events| - 1])
  {
    var n := |events| - 1;
    FoldConcat(feed, events[..n], [events[n]]);
    assert events == events[..n] + [events[n]] && [events[n]][1..] == [];
  }

  // What a session sees of a batch changes the depth as the whole batch does.
  lemma {:induction false} VisibleFolds(feed: Feed, events: seq<Event>, ts: int, s: int)
    ensures Noticed(feed, Visible(events, ts, s, 1)) == Fold(feed, events)
  {
    if events != [] {
      var n := |events| - 1;
      var before, share := Visible(events[..n], ts, s, 1), Share(events[n], ts, s, 1);
      VisibleFolds(feed, events[..n], ts, s);
      FoldSnoc(feed, events);
      NoticedConcat(feed, before, share);
      ShareFolds(Noticed(feed, before), events[n], ts, s);
    }
  }

  lemma {:induction false} ShareFolds(feed: Feed, ev: Event, ts: int, s: int)
    ensures Noticed(feed, Share(ev, ts, s, 1)) == Apply(feed, ev)
  {
    var share := Share(ev, ts, s, 1);
    if share != [] {
      assert share == [Notice(ev, ts)] && share[..0] == [];
    }
  }

  // The session is open whenever a message is processed.
  ghost predicate Listening(inputs: seq<Input>, s: int) {
    forall k :: 0 <= k < |inputs| && inputs[k].Message? ==> IsOpen(START, inputs[..k], s)
  }

  lemma {:induction false} DueFolds(inputs: seq<Input>, s: int)
    requires Listening(inputs, s)
    ensures Noticed(map[], Due(START, inputs, s)) == Fold(map[], Run(EMPTY, Commands(inputs)).events)
  {
    if inputs != [] {
      hide Run, Commands, Batch, IsOpen, Visible, Fold, Noticed;
      var n := |inputs| - 1;
      assert Listening(inputs[..n], s) by {
        assert forall k :: 0 <= k < n ==> inputs[..n][k] == inputs[k] && inputs[..n][..k] == inputs[..k];
      }
      DueFolds(inputs[..n], s);
      BatchIsTail(START, inputs);
      FoldConcat(map[], Run(EMPTY, Commands(inputs[..n])).events, Batch(START, inputs));
      var before := Due(START, inputs[..n], s);
      if IsOpen(START, inputs[..n], s) {
        NoticedConcat(map[], before, Visible(Batch(START, inputs), Stamp(inputs[n]), s, 1));
        VisibleFolds(Noticed(map[], before), Batch(START, inputs), Stamp(inputs[n]), s);
      } else {
        assert Due(START, inputs, s) == before;
        QuietBatch(inputs, Fold(map[], Run(EMPTY, Commands(inputs[..n])).events));
      }
    }
  }

  lemma {:induction false} QuietBatch(inputs: seq<Input>, feed: Feed)
    requires inputs != [] && !inputs[|inputs| - 1].Message?
    ensures Batch(START, inputs) == [] && Fold(feed, Batch(START, inputs)) == feed
  {
  }

  // A client that listens from the first message on rebuilds, from the bytes it
  // receives, the fold of the engine's updates; and if no command strays, exactly
  // the depth of the service's book.
  lemma {:induction false} ClientKnowsDepth(inputs: seq<Input>, s: int)
    requires ServeAll(START, inputs).state.alive && FreshOpens(START, inputs) && Listening(inputs, s)
    ensures var heard := HearAll(Received(ServeAll(START, inputs).sent, s));
            && heard == Fold(map[], Run(EMPTY, Commands(inputs)).events)
            && ((forall k :: 0 <= k < |Commands(inputs)| ==> !StraysAt(Commands(inputs), k))
                ==> Exact(heard, ServeAll(START, inputs).state.book))
  {
    assert Sound(START) && Count([], s) == 0;
    hide ServeAll, Due, Run, Commands, Fold, Exact, StraysAt, HearAll, Received, Callback, Sound;
    ClientSees(START, inputs, s);
    HearsNotices(Received(ServeAll(START, inputs).sent, s), Due(START, inputs, s));
    DueFolds(inputs, s);
    StateFromInputs(START, inputs, s);
    var cmds := Commands(inputs);
    if forall k :: 0 <= k < |cmds| ==> !StraysAt(cmds, k) {
      FeedEqualsDepth(cmds);
      assert ExactAfter(cmds, |cmds|);
      assert cmds[..|cmds|] == cmds;
    }
  }
}
