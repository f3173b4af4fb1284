/** The critical sections of the score client on the fields its mutex guards
    (internal/transport/scores.go), each the corresponding step of `ScoreQueue`.
    Waiters live in a backing array that is compacted in place. */
module ScoresClient {
  import opened ScoreQueue

  lemma {:induction false} WaitingSnoc(ws: seq<Waiter>, w: Waiter, completed: nat)
    ensures Waiting(ws + [w], completed) == Waiting(ws, completed) + (if w.target <= completed then [] else [w])
    decreases |ws|
  {
    if ws == [] {
      assert [w][1..] == [];
      assert ws + [w] == [w];
    } else {
      assert (ws + [w])[0] == ws[0] && (ws + [w])[1..] == ws[1..] + [w];
      WaitingSnoc(ws[1..], w, completed);
      var head := if ws[0].target <= completed then [] else [ws[0]];
      var last := if w.target <= completed then [] else [w];
      assert head + (Waiting(ws[1..], completed) + last) == (head + Waiting(ws[1..], completed)) + last;
    }
  }

  lemma {:induction false} WithoutAt(ws: seq<Waiter>, id: nat, i: nat)
    requires i <= |ws| && forall k :: 0 <= k < i ==> ws[k].id != id
    ensures i < |ws| && ws[i].id == id ==> Without(ws, id) == ws[..i] + ws[i + 1..]
    ensures i == |ws| ==> Without(ws, id) == ws
    decreases i
  {
    if i > 0 {
      WithoutAt(ws[1..], id, i - 1);
      assert ws == [ws[0]] + ws[1..];
      if i < |ws| {
        assert ws[..i] == [ws[0]] + ws[1..][..i - 1];
        assert ws[1..][i..] == ws[i + 1..];
      }
    } else if ws != [] {
      assert ws[..0] + ws[1..] == ws[1..];
    }
  }

  lemma ReachedSnoc(ws: seq<Waiter>, w: Waiter, completed: nat)
    ensures Reached(ws + [w], completed) == Reached(ws, completed) + (if w.target <= completed then {w.id} else {})
  {
    var a, b := Reached(ws + [w], completed), Reached(ws, completed) + (if w.target <= completed then {w.id} else {});
    forall id | id in a ensures id in b { var v :| v in ws + [w] && v.target <= completed && v.id == id; }
    forall id | id in b ensures id in a {
      if id in Reached(ws, completed) {
        var v :| v in ws && v.target <= completed && v.id == id;
        assert v in ws + [w];
      } else {
        assert w in ws + [w];
      }
    }
  }

  lemma NoneWaiting(completed: nat)
    ensures Waiting([], completed) == [] && Reached([], completed) == {}
  {
  }

  class Client {
    const capacity: nat
    var buf: seq<Score>
    var accepted: nat
    var completed: nat
    var waiters: array<Waiter>
    var count: nat           // length of the live part of `waiters`
    var started: bool
    var stopped: bool
    var closed: set<nat>     // waiter channels closed so far

    constructor (capacity: nat)
      ensures Valid() && View() == START.q && closed == {} && this.capacity == capacity && fresh(waiters)
    {
      this.capacity := capacity;
      buf, accepted, completed, count, started, stopped, closed := [], 0, 0, 0, false, false, {};
      waiters := new Waiter[0];
    }

    ghost predicate Valid()
      reads this
    {
      count <= waiters.Length
    }

    ghost function View(): Queue
      requires Valid()
      reads this, waiters
    {
      Queue(buf, accepted, completed, waiters[..count], started, stopped)
    }

    /** Reports whether the score was accepted. */
    method TryEnqueue(score: Score) returns (ok: bool)
      requires Valid()
      modifies this
      ensures Valid() && waiters == old(waiters) && closed == old(closed)
      ensures ok <==> !old(stopped) && |old(buf)| < capacity
      ensures View() == if ok then Accept(old(View()), score) else old(View())
    {
      ok := !stopped && |buf| < capacity;
      if ok {
        started := true;
        buf := buf + [score];
        accepted := accepted + 1;
      }
    }

    /** A flush registers a waiter unless everything is already complete. */
    method TryFlush(id: nat) returns (done: bool)
      requires Valid()
      modifies this, waiters
      ensures Valid() && closed == old(closed) && (waiters == old(waiters) || fresh(waiters))
      ensures done <==> old(completed) >= old(accepted)
      ensures View() == if done then old(View()) else AddWaiter(old(View()), id)
    {
      done := completed >= accepted;
      if !done {
        if count == waiters.Length {
          var bigger := new Waiter[2 * count + 1](_ => Waiter(0, 0));
          for i := 0 to count
            modifies bigger
            invariant bigger[..i] == waiters[..i]
          {
            bigger[i] := waiters[i];
          }
          waiters := bigger;
        }
        assert waiters[..count] == old(waiters[..count]);
        waiters[count] := Waiter(id, accepted);
        count := count + 1;
        assert waiters[..count] == old(waiters[..count]) + [Waiter(id, accepted)];
      }
    }

    /** Removes the first waiter of a canceled flush, keeping the order. */
    method AbandonWaiter(id: nat)
      requires Valid()
      modifies this`count, waiters
      ensures Valid() && View() == old(View()).(waiters := Without(old(View()).waiters, id))
    {
      ghost var was := waiters[..count];
      var i := 0;
      while i < count
        invariant 0 <= i <= count == |was| <= waiters.Length && waiters[..count] == was
        invariant forall k :: 0 <= k < i ==> was[k].id != id
      {
        if waiters[i].id == id {
          WithoutAt(was, id, i);
          ghost var shifted := was[..i] + was[i + 1..];
          var j := i;
          while j + 1 < count
            invariant i <= j < count == |was| <= waiters.Length
            invariant forall k :: 0 <= k < j ==> waiters[k] == shifted[k]
            invariant forall k :: j < k < count ==> waiters[k] == was[k]
          {
            waiters[j] := waiters[j + 1];
            j := j + 1;
          }
          count := count - 1;
          assert waiters[..count] == shifted;
          return;
        }
        i := i + 1;
      }
      WithoutAt(was, id, i);
    }

    method BeginShutdown() returns (already: bool, drained: bool)
      requires Valid()
      modifies this`stopped
      ensures Valid() && already == old(stopped) && drained == (completed >= accepted)
      ensures View() == old(View()).(stopped := true)
    {
      already, drained := stopped, completed >= accepted;
      stopped := true;
    }

    /** The dispatcher takes the oldest score, if any. */
    method Take() returns (event: Score, taken: bool)
      requires Valid()
      modifies this`buf
      ensures Valid() && taken == (old(buf) != [])
      ensures taken ==> event == old(buf)[0] && View() == old(View()).(buf := old(buf)[1..])
      ensures !taken ==> View() == old(View())
    {
      event, taken := 0, buf != [];
      if taken {
        event, buf := buf[0], buf[1..];
      }
    }

    /** Closes the waiters that the current count reaches and compacts the
        others in place. */
    method Compact()
      requires Valid()
      modifies this`count, this`closed, waiters
      ensures Valid() && waiters[..count] == Waiting(old(waiters[..count]), completed)
      ensures closed == old(closed) + Reached(old(waiters[..count]), completed)
    {
      hide Waiting, Reached, View;
      ghost var was := waiters[..count];
      var kept, i := 0, 0;
      ghost var left: seq<Waiter> := [];
      NoneWaiting(completed);
      while i < count
        invariant 0 <= kept <= i <= count == |was| <= waiters.Length
        invariant kept == |left| && forall k :: 0 <= k < kept ==> waiters[k] == left[k]
        invariant left == Waiting(was[..i], completed)
        invariant forall k :: i <= k < count ==> waiters[k] == was[k]
        invariant closed == old(closed) + Reached(was[..i], completed)
      {
        var waiter := waiters[i];
        assert was[..i + 1] == was[..i] + [waiter];
        WaitingSnoc(was[..i], waiter, completed);
        ReachedSnoc(was[..i], waiter, completed);
        if waiter.target <= completed {
          closed := closed + {waiter.id};
          assert left + [] == left;
        } else {
          waiters[kept] := waiter;
          kept := kept + 1;
          left := left + [waiter];
        }
        i := i + 1;
      }
      assert was[..i] == was && waiters[..kept] == left;
      count := kept;
    }

    method FinishOne()
      requires Valid()
      modifies this`completed, this`count, this`closed, waiters
      ensures Valid() && View() == ScoreQueue.FinishOne(old(View()))
      ensures closed == old(closed) + Reached(old(View()).waiters, completed)
    {
      completed := completed + 1;
      Compact();
    }
  }
}
