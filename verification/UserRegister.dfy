/** The basic user account subscriber: a register that only newer slots overwrite. */
module UserRegister {
  import opened Bn

  datatype DataAndSlot<T> = DataAndSlot(data: Option<T>, slot: Option<int>)

  datatype Event<T> = UserAccountUpdate(data: T) | Update

  /** A slot not yet known counts as zero. */
  function CurrentSlot<T>(user: DataAndSlot<T>): int {
    user.slot.GetOr(0)
  }

  function Accept<T>(user: DataAndSlot<T>, data: T, slot: int): DataAndSlot<T> {
    if slot >= CurrentSlot(user) then DataAndSlot(Some(data), Some(slot)) else user
  }

  /** What an update emits. */
  function Events<T>(user: DataAndSlot<T>, data: T, slot: int): seq<Event<T>> {
    if slot >= CurrentSlot(user) then [UserAccountUpdate(data), Update] else []
  }

  class BasicUserAccountSubscriber<T> {
    var user: DataAndSlot<T>
    ghost var emitted: seq<Event<T>>

    constructor (data: Option<T>, slot: Option<int>)
      ensures user == DataAndSlot(data, slot) && emitted == []
    {
      user := DataAndSlot(data, slot);
      emitted := [];
    }

    method UpdateData(userAccount: T, slot: int)
      modifies this
      ensures user == Accept(old(user), userAccount, slot)
      ensures emitted == old(emitted) + Events(old(user), userAccount, slot)
    {
      if slot >= user.slot.GetOr(0) {
        user := DataAndSlot(Some(userAccount), Some(slot));
        emitted := emitted + [UserAccountUpdate(userAccount)];
        emitted := emitted + [Update];
      }
    }
  }

  datatype Call<T> = Call(data: T, slot: int)

  /** The register after a run of updates. */
  function Run<T>(user: DataAndSlot<T>, calls: seq<Call<T>>): DataAndSlot<T> {
    if calls == [] then user
    else
      var last := calls[|calls| - 1];
      Accept(Run(user, calls[..|calls| - 1]), last.data, last.slot)
  }

  /** The accepted updates of a run, in order. */
  function Accepted<T>(user: DataAndSlot<T>, calls: seq<Call<T>>): seq<Call<T>> {
    if calls == [] then []
    else
      var before := calls[..|calls| - 1];
      var last := calls[|calls| - 1];
      Accepted(user, before) + (if last.slot >= CurrentSlot(Run(user, before)) then [last] else [])
  }

  /** The events of a run, in order. */
  function Emissions<T>(user: DataAndSlot<T>, calls: seq<Call<T>>): seq<Event<T>> {
    if calls == [] then []
    else
      var before := calls[..|calls| - 1];
      var last := calls[|calls| - 1];
      Emissions(user, before) + Events(Run(user, before), last.data, last.slot)
  }

  /** A client that feeds a subscriber one update after another: it ends in the run's state and emits
      the run's events. */
  method UpdateAll<T>(subscriber: BasicUserAccountSubscriber<T>, calls: seq<Call<T>>)
    modifies subscriber
    ensures subscriber.user == Run(old(subscriber.user), calls)
    ensures subscriber.emitted == old(subscriber.emitted) + Emissions(old(subscriber.user), calls)
  {
    for i := 0 to |calls|
      invariant subscriber.user == Run(old(subscriber.user), calls[..i])
      invariant subscriber.emitted == old(subscriber.emitted) + Emissions(old(subscriber.user), calls[..i])
    {
      assert calls[..i + 1][..i] == calls[..i];
      subscriber.UpdateData(calls[i].data, calls[i].slot);
    }
    assert calls[..|calls|] == calls;
  }

  /** A run emits its accepted updates, two events each. */
  lemma {:induction false} EmitsAccepted<T>(user: DataAndSlot<T>, calls: seq<Call<T>>)
    ensures var accepted, events := Accepted(user, calls), Emissions(user, calls);
            && |events| == 2 * |accepted|
            && forall i :: 0 <= i < |accepted| ==>
                 events[2 * i] == UserAccountUpdate(accepted[i].data) && events[2 * i + 1] == Update
  {
    if calls != [] {
      EmitsAccepted(user, calls[..|calls| - 1]);
    }
  }

  /** Call `i` attains the largest slot of the run, is not behind the initial one, and is the last to. */
  predicate LastAtMaximum<T>(user: DataAndSlot<T>, calls: seq<Call<T>>, i: nat)
    requires i < |calls|
  {
    && calls[i].slot >= CurrentSlot(user)
    && (forall j :: 0 <= j < |calls| ==> calls[j].slot <= calls[i].slot)
    && (forall j :: i < j < |calls| ==> calls[j].slot < calls[i].slot)
  }

  /** After any run the slot is the largest seen, the initial one included, and the register holds the
      data of the last call to attain it, or is untouched if every call was behind. */
  lemma {:induction false} RunHoldsNewest<T>(user: DataAndSlot<T>, calls: seq<Call<T>>)
    ensures CurrentSlot(user) <= CurrentSlot(Run(user, calls))
    ensures forall j :: 0 <= j < |calls| ==> calls[j].slot <= CurrentSlot(Run(user, calls))
    ensures if forall j :: 0 <= j < |calls| ==> calls[j].slot < CurrentSlot(user) then Run(user, calls) == user
            else exists i :: 0 <= i < |calls| && LastAtMaximum(user, calls, i)
                             && Run(user, calls) == DataAndSlot(Some(calls[i].data), Some(calls[i].slot))
  {
    if calls != [] {
      var n := |calls| - 1;
      var before := calls[..n];
      RunHoldsNewest(user, before);
      var last := calls[n];
      if last.slot >= CurrentSlot(Run(user, before)) {
        assert LastAtMaximum(user, calls, n);
      } else if exists j :: 0 <= j < n && before[j].slot >= CurrentSlot(user) {
        var i :| 0 <= i < n && LastAtMaximum(user, before, i)
                 && Run(user, before) == DataAndSlot(Some(before[i].data), Some(before[i].slot));
        assert LastAtMaximum(user, calls, i);
      }
    }
  }

  predicate Ascending<T>(calls: seq<Call<T>>, low: int, high: int) {
    && (forall i, j :: 0 <= i < j < |calls| ==> calls[i].slot <= calls[j].slot)
    && (forall i :: 0 <= i < |calls| ==> low <= calls[i].slot <= high)
  }

  /** The updates a run emits never go back to an earlier slot. */
  lemma {:induction false} AcceptedSlotsAscend<T>(user: DataAndSlot<T>, calls: seq<Call<T>>)
    ensures Ascending(Accepted(user, calls), CurrentSlot(user), CurrentSlot(Run(user, calls)))
  {
    if calls != [] {
      var before, last := calls[..|calls| - 1], calls[|calls| - 1];
      AcceptedSlotsAscend(user, before);
      RunHoldsNewest(user, before);
      if last.slot >= CurrentSlot(Run(user, before)) {
        assert CurrentSlot(Run(user, calls)) == last.slot;
        AppendCall(Accepted(user, before), last, CurrentSlot(user), CurrentSlot(Run(user, before)));
      } else {
        assert Accepted(user, calls) == Accepted(user, before);
      }
    }
  }

  lemma AppendCall<T>(calls: seq<Call<T>>, last: Call<T>, low: int, high: int)
    requires Ascending(calls, low, high) && low <= high <= last.slot
    ensures Ascending(calls + [last], low, last.slot)
  {
  }

  /** The updates that attain the largest slot all carry the same data, as when slots are distinct. */
  predicate OneNewest<T(==)>(calls: seq<Call<T>>) {
    forall i, j :: 0 <= i < |calls| && 0 <= j < |calls| && calls[i].slot == calls[j].slot ==>
      calls[i].data == calls[j].data || exists k :: 0 <= k < |calls| && calls[k].slot > calls[i].slot
  }

  /** Runs of the same updates end in the same state, whatever their order, if they agree on the
      newest. */
  lemma RunIgnoresOrder<T>(user: DataAndSlot<T>, xs: seq<Call<T>>, ys: seq<Call<T>>)
    requires multiset(xs) == multiset(ys)
    requires OneNewest(xs)
    ensures Run(user, xs) == Run(user, ys)
  {
    RunHoldsNewest(user, xs);
    RunHoldsNewest(user, ys);
    SameCalls(xs, ys);
    SameCalls(ys, xs);
    if exists i :: 0 <= i < |xs| && xs[i].slot >= CurrentSlot(user) {
      var i :| 0 <= i < |xs| && LastAtMaximum(user, xs, i)
               && Run(user, xs) == DataAndSlot(Some(xs[i].data), Some(xs[i].slot));
      var k :| 0 <= k < |ys| && ys[k] == xs[i];
      var j :| 0 <= j < |ys| && LastAtMaximum(user, ys, j)
               && Run(user, ys) == DataAndSlot(Some(ys[j].data), Some(ys[j].slot));
      var l :| 0 <= l < |xs| && xs[l] == ys[j];
      assert xs[i].slot == xs[l].slot;
    }
  }

  /** Otherwise order shows: of two updates for one slot that is not behind, the later one stays. */
  lemma TiesKeepTheLater<T>(user: DataAndSlot<T>, slot: int, first: T, second: T)
    requires slot >= CurrentSlot(user)
    ensures Run(user, [Call(first, slot), Call(second, slot)]) == DataAndSlot(Some(second), Some(slot))
  {
    var calls := [Call(first, slot), Call(second, slot)];
    assert calls[..1] == [Call(first, slot)];
    assert calls[..1][..0] == [];
    RunHoldsNewest(user, calls[..1]);
  }

  lemma SameCalls<T>(xs: seq<Call<T>>, ys: seq<Call<T>>)
    requires multiset(xs) == multiset(ys)
    ensures forall i :: 0 <= i < |xs| ==> xs[i] in ys
  {
    forall i | 0 <= i < |xs|
      ensures xs[i] in ys
    {
      assert xs[i] in multiset(xs);
    }
  }
}
