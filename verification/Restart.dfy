/**
A service stopped after a snapshot and started again from it: the same engine,
and with the same sessions the same service, as if it had never stopped.
*/
module Restart {
  import opened Events
  import opened Book
  import opened Invariant
  import opened Bounds
  import opened Codec
  import opened Wire
  import opened Sessions
  import opened Recovery
  import Snapshot

  // Session ids are 64-bit words.
  predicate FromWord(input: Input) {
    input.Message? ==> Word64(input.session)
  }

  lemma {:induction false} CommandsSendable(inputs: seq<Input>)
    requires forall k :: 0 <= k < |inputs| ==> FromWord(inputs[k])
    ensures forall k :: 0 <= k < |Commands(inputs)| ==> Sendable(Commands(inputs)[k])
  {
    if inputs != [] {
      hide Ingress;
      var n := |inputs| - 1;
      CommandsSendable(inputs[..n]);
      assert FromWord(inputs[n]);
      if BringsCommand(inputs[n]) {
        IngressFits(inputs[n].frame, inputs[n].session);
      }
    }
  }

  // What the wire lets in is what the snapshot format can hold.
  lemma {:induction false} CommandsIssued(inputs: seq<Input>)
    requires forall k :: 0 <= k < |inputs| ==> FromWord(inputs[k])
    requires WantedAll(Commands(inputs)) <= MAX64 && AcceptedCount(Commands(inputs)) < MAX64
    ensures Issued(Commands(inputs))
  {
    CommandsSendable(inputs);
    CommandsFit(inputs);
    hide Commands, WantedAll, AcceptedCount, NumbersFit, Sendable;
  }

  // Serving is serving the first inputs and then the rest.
  lemma {:induction false} ServeConcat(start: State, before: seq<Input>, after: seq<Input>)
    requires ServeAll(start, before).state.alive
    ensures var first := ServeAll(start, before);
            var rest := ServeAll(first.state, after);
            ServeAll(start, before + after) == Served(rest.state, first.sent + rest.sent)
  {
    hide Serve;
    if after == [] {
      assert before + after == before;
    } else {
      var n := |after| - 1;
      ServeConcat(start, before, after[..n]);
      assert (before + after)[..|before| + n] == before + after[..n] && (before + after)[|before| + n] == after[n];
      var first, mid := ServeAll(start, before), ServeAll(ServeAll(start, before).state, after[..n]);
      var last := Serve(mid.state, after[n]);
      assert first.sent + (mid.sent + last.sent) == (first.sent + mid.sent) + last.sent;
    }
  }

  // Any run of the service, its snapshot and its restore: restoring gives the
  // engine back if and only if the order count fits the header. A service started
  // from it with any sessions has the engine of the uninterrupted run; started
  // with the same sessions it is in the state and makes the offers of the
  // uninterrupted service.
  lemma {:induction false} RestartedService(before: seq<Input>, after: seq<Input>, open: set<int>, ids: seq<int>)
    requires ServeAll(START, before).state.alive
    requires forall k :: 0 <= k < |before| ==> FromWord(before[k])
    requires WantedAll(Commands(before)) <= MAX64 && AcceptedCount(Commands(before)) < MAX64
    ensures var st := ServeAll(START, before).state;
            var r := Snapshot.Restore(Snapshot.SnapshotBytes(st.book));
            && (r == Snapshot.Ok(st.book) <==> Snapshot.Count(st.book) < 0x8000_0000)
            && (r == Snapshot.Ok(st.book) ==>
                  var again := ServeAll(State(r.value, open, ids, true), after);
                  && (again.state.alive ==> again.state.book == Run(EMPTY, Commands(before) + Commands(after)).book)
                  && (open == st.open && ids == st.ids ==>
                        ServeAll(START, before + after) == Served(again.state, ServeAll(START, before).sent + again.sent)))
  {
    hide ServeAll, Run, Commands, WantedAll, AcceptedCount, Snapshot.Restore, Snapshot.SnapshotBytes, Issued;
    var st := ServeAll(START, before).state;
    BookFromInputs(START, before);
    CommandsIssued(before);
    RunAcrossRestore(Commands(before), Commands(after));
    var again := State(st.book, open, ids, true);
    if ServeAll(again, after).state.alive {
      BookFromInputs(again, after);
    }
    ServeConcat(START, before, after);
  }
}
