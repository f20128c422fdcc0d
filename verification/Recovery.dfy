/**
Snapshots of reachable books: every book a run can reach fits the snapshot
format, and a run interrupted by a snapshot and a restore is the uninterrupted
run, so every run-level theorem holds across restores.
*/
module Recovery {
  import opened Events
  import opened Book
  import opened Matching
  import opened Invariant
  import opened Bytes
  import opened Bounds
  import Snapshot

  // Session ids take the whole 64-bit range.
  predicate Word64(v: int) {
    -MAX64 - 1 <= v <= MAX64
  }

  // A side is any 8-bit code.
  predicate Code8(v: int) {
    -128 <= v < 128
  }

  ghost predicate OwnersFit(s: seq<Order>) {
    forall i :: 0 <= i < |s| ==> Word64(s[i].owner) && Code8(s[i].side)
  }

  predicate Sendable(cmd: Command) {
    Word64(cmd.owner) && (cmd.NewOrder? ==> Code8(cmd.side))
  }

  lemma {:induction false} PlaceKeepsOwners(b: Book, cmd: Command)
    requires WellFormed(b) && Acceptable(cmd) && Sendable(cmd) && OwnersFit(b.bids) && OwnersFit(b.asks)
    ensures OwnersFit(Placed(b, cmd).bids) && OwnersFit(Placed(b, cmd).asks)
    ensures Snapshot.Count(Placed(b, cmd)) <= Snapshot.Count(b) + 1
  {
    var dropped := MatchLeavesTail(Opposite(b, cmd.side), cmd.side, cmd.price, cmd.qty);
    hide Match;
    var m := MatchOf(b, cmd);
    if m.left > 0 {
      InsertOwners(Own(AfterMatch(b, cmd.side, m.opposite), cmd.side), Taker(b, cmd).(qty := m.left));
    }
  }

  lemma {:induction false} InsertOwners(s: seq<Order>, o: Order)
    requires OwnersFit(s) && Word64(o.owner) && Code8(o.side)
    ensures OwnersFit(Insert(s, o)) && |Insert(s, o)| == |s| + 1
  {
  }

  lemma {:induction false} StepKeepsOwners(b: Book, cmd: Command)
    requires WellFormed(b) && Sendable(cmd) && OwnersFit(b.bids) && OwnersFit(b.asks)
    ensures var out := Step(b, cmd).book;
            && OwnersFit(out.bids) && OwnersFit(out.asks)
            && Snapshot.Count(out) <= Snapshot.Count(b) + if Acceptable(cmd) then 1 else 0
  {
    if Acceptable(cmd) {
      PlaceKeepsOwners(b, cmd);
    }
  }

  lemma {:induction false} RunKeepsOwners(cmds: seq<Command>)
    requires forall k :: 0 <= k < |cmds| ==> Sendable(cmds[k])
    ensures var b := Run(EMPTY, cmds).book;
            OwnersFit(b.bids) && OwnersFit(b.asks) && Snapshot.Count(b) <= AcceptedCount(cmds)
  {
    if cmds != [] {
      var n := |cmds| - 1;
      RunKeepsOwners(cmds[..n]);
      RunKeepsWellFormed(EMPTY, cmds[..n]);
      StepKeepsOwners(Run(EMPTY, cmds[..n]).book, cmds[n]);
    }
  }

  // Commands as the service issues them, within the budget of the 64-bit range.
  ghost predicate Issued(cmds: seq<Command>) {
    WithinBudget(EMPTY, cmds) && forall k :: 0 <= k < |cmds| ==> Sendable(cmds[k])
  }

  lemma {:induction false} SideFits(s: seq<Order>, buy: bool, nextId: int)
    requires SideOk(s, buy, nextId) && OrdersFit(s) && OwnersFit(s) && Qty(s, All) <= MAX64 && nextId <= MAX64
    ensures Snapshot.SideFits(s)
  {
    Spans();
    hide Qty;
    forall i | 0 <= i < |s|
      ensures Snapshot.OrderFits(s[i])
    {
      SingleBound(s, i);
    }
  }

  // Every reachable book fits the snapshot format, with at most one resting
  // order per acceptance.
  lemma {:induction false} ReachableFits(cmds: seq<Command>)
    requires Issued(cmds)
    ensures var b := Run(EMPTY, cmds).book;
            WellFormed(b) && Snapshot.BookFits(b) && Snapshot.Count(b) <= AcceptedCount(cmds)
  {
    hide Run, Qty, Snapshot.SideFits;
    var b := Run(EMPTY, cmds).book;
    RunKeepsWellFormed(EMPTY, cmds);
    RunKeepsOwners(cmds);
    RunFits(EMPTY, cmds);
    SideFits(b.bids, true, b.nextId);
    SideFits(b.asks, false, b.nextId);
    Spans();
  }

  lemma {:induction false} RunConcat(b: Book, cmds: seq<Command>, more: seq<Command>)
    ensures Run(b, cmds + more).book == Run(Run(b, cmds).book, more).book
    ensures Run(b, cmds + more).events == Run(b, cmds).events + Run(Run(b, cmds).book, more).events
  {
    hide Step;
    if more == [] {
      assert cmds + more == cmds;
    } else {
      var n := |more| - 1;
      RunConcat(b, cmds, more[..n]);
      assert (cmds + more)[..|cmds| + n] == cmds + more[..n];
    }
  }

  // A snapshot of any reachable book restores it, if and only if its order count
  // fits the header; then a run that goes on from the restored book gives the
  // events and the state of the uninterrupted run.
  lemma {:induction false} RunAcrossRestore(cmds: seq<Command>, more: seq<Command>)
    requires Issued(cmds)
    ensures var b := Run(EMPTY, cmds).book;
            var r := Snapshot.Restore(Snapshot.SnapshotBytes(b));
            && (r == Snapshot.Ok(b) <==> Snapshot.Count(b) < 0x8000_0000)
            && (r == Snapshot.Ok(b) ==>
                  && Run(EMPTY, cmds + more).events == Run(EMPTY, cmds).events + Run(r.value, more).events
                  && Run(EMPTY, cmds + more).book == Run(r.value, more).book)
  {
    hide Run, WellFormed, Snapshot.BookFits, Snapshot.Restore, Snapshot.SnapshotBytes;
    ReachableFits(cmds);
    Snapshot.RoundTrip(Run(EMPTY, cmds).book);
    RunConcat(EMPTY, cmds, more);
  }

  // In particular the book stays uncrossed across a restore.
  lemma {:induction false} UncrossedAcrossRestore(cmds: seq<Command>, more: seq<Command>)
    requires Issued(cmds) && Snapshot.Count(Run(EMPTY, cmds).book) < 0x8000_0000
    requires forall k :: 0 <= k < |cmds| && cmds[k].NewOrder? ==> ProperSide(cmds[k].side)
    requires forall k :: 0 <= k < |more| && more[k].NewOrder? ==> ProperSide(more[k].side)
    ensures var r := Snapshot.Restore(Snapshot.SnapshotBytes(Run(EMPTY, cmds).book));
            r.Ok? && Uncrossed(r.value) && Uncrossed(Run(r.value, more).book)
  {
    hide Run, Uncrossed, Snapshot.Restore, Snapshot.SnapshotBytes;
    ReachableFits(cmds);
    RunAcrossRestore(cmds, more);
    ProperRunUncrossed(cmds);
    ProperRunUncrossed(cmds + more);
  }
}
