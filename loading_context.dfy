/**
 * The global loading flag of the front end (`LoadingProvider`): a counter of
 * operations in flight and a `visible` flag that the overlay follows.
 * `begin` opens an operation, `end` closes one, and the overlay hides only
 * when the last one closes.
 */
module LoadingContext {

  /** The provider's state at one instant. */
  datatype Snapshot = Snapshot(counter: nat, visible: bool)

  datatype Call = Begin | End

  const INITIAL := Snapshot(0, false)

  /** The overlay is shown exactly while some operation is open. */
  predicate Consistent(s: Snapshot) { s.visible <==> s.counter > 0 }

  /** `begin()`: one more operation is open and the overlay is shown. */
  function AfterBegin(s: Snapshot): (r: Snapshot)
    ensures r.counter == s.counter + 1 && r.visible
  {
    Snapshot(s.counter + 1, true)
  }

  /** `end()`: one operation fewer, never below zero; the overlay hides when none is left. */
  function AfterEnd(s: Snapshot): (r: Snapshot)
    ensures r.counter == (if s.counter == 0 then 0 else s.counter - 1)
    ensures r.counter == 0 ==> !r.visible
    ensures r.counter > 0 ==> r.visible == s.visible
    ensures r.visible ==> s.visible
  {
    var c := if s.counter == 0 then 0 else s.counter - 1;
    Snapshot(c, if c == 0 then false else s.visible)
  }

  function Apply(s: Snapshot, call: Call): Snapshot
  {
    match call
    case Begin => AfterBegin(s)
    case End => AfterEnd(s)
  }

  /** The state after a sequence of calls, in order. */
  function Run(s: Snapshot, calls: seq<Call>): Snapshot
    decreases |calls|
  {
    if calls == [] then s else Run(Apply(s, calls[0]), calls[1..])
  }

  /** Both calls keep the overlay in step with the counter. */
  lemma ApplyKeepsConsistent(s: Snapshot, call: Call)
    requires Consistent(s)
    ensures Consistent(Apply(s, call))
  {
  }

  lemma {:induction false} RunKeepsConsistent(s: Snapshot, calls: seq<Call>)
    requires Consistent(s)
    ensures Consistent(Run(s, calls))
    decreases |calls|
  {
    if calls != [] {
      ApplyKeepsConsistent(s, calls[0]);
      RunKeepsConsistent(Apply(s, calls[0]), calls[1..]);
    }
  }

  /** `begin` followed by `end` leaves the counter where it was. */
  lemma BeginEndRestores(s: Snapshot)
    ensures AfterEnd(AfterBegin(s)).counter == s.counter
    ensures Consistent(s) ==> AfterEnd(AfterBegin(s)) == s
  {
  }

  /** The number of `begin` calls minus the number of `end` calls. */
  function Net(calls: seq<Call>): int
  {
    if calls == [] then 0
    else Net(calls[..|calls| - 1]) + (if calls[|calls| - 1] == Begin then 1 else -1)
  }

  /** No prefix closes more operations than it opened. */
  predicate NeverUnderflows(calls: seq<Call>) {
    forall n :: 0 <= n <= |calls| ==> Net(calls[..n]) >= 0
  }

  /** Every operation opened is closed, and none is closed before it is opened. */
  predicate Balanced(calls: seq<Call>) { NeverUnderflows(calls) && Net(calls) == 0 }

  lemma RunSnoc(s: Snapshot, calls: seq<Call>, c: Call)
    ensures Run(s, calls + [c]) == Apply(Run(s, calls), c)
    decreases |calls|
  {
    if calls != [] {
      assert (calls + [c])[1..] == calls[1..] + [c];
      RunSnoc(Apply(s, calls[0]), calls[1..], c);
    }
  }

  /** Without underflow the counter is the starting count plus the net number of `begin`s. */
  lemma {:induction false} RunCounter(s: Snapshot, calls: seq<Call>)
    requires NeverUnderflows(calls)
    ensures Run(s, calls).counter == s.counter + Net(calls)
    decreases |calls|
  {
    if calls != [] {
      var init := calls[..|calls| - 1];
      var last := calls[|calls| - 1];
      assert calls == init + [last];
      assert NeverUnderflows(init) by {
        forall n | 0 <= n <= |init| ensures Net(init[..n]) >= 0 {
          assert init[..n] == calls[..n];
        }
      }
      assert calls[..|calls|] == calls;
      RunCounter(s, init);
      RunSnoc(s, init, last);
      if last == End {
        assert Net(calls) == Net(init) - 1;
      }
    }
  }

  /**
   * From the initial state, a balanced sequence of calls ends with
   * the counter back at zero and the overlay hidden.
   */
  lemma BalancedHides(calls: seq<Call>)
    requires Balanced(calls)
    ensures Run(INITIAL, calls).counter == 0
    ensures !Run(INITIAL, calls).visible
  {
    RunCounter(INITIAL, calls);
    RunKeepsConsistent(INITIAL, calls);
  }

  /** The provider itself, whose `begin`/`end` update the counter and the flag in place. */
  class LoadingProvider {
    var counter: nat
    var visible: bool

    function State(): Snapshot
      reads this
    {
      Snapshot(counter, visible)
    }

    constructor ()
      ensures State() == INITIAL
    {
      counter := 0;
      visible := false;
    }

    method Begin()
      modifies this
      ensures State() == AfterBegin(old(State()))
    {
      counter := counter + 1;
      visible := true;
    }

    method End()
      modifies this
      ensures State() == AfterEnd(old(State()))
      ensures counter == 0 ==> !visible
    {
      counter := if counter == 0 then 0 else counter - 1;
      if counter == 0 {
        visible := false;
      }
    }

    /**
     * `showFor(ms)`: opens an operation now; the `end` that the timer fires
     * after `ms` milliseconds is a later call of `End`.
     */
    method ShowFor(ms: nat)
      modifies this
      ensures State() == AfterBegin(old(State()))
    {
      Begin();
    }
  }
}
