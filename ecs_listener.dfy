/**
 * The event listener of ecs.hpp (class Listener<E>): a callback and two
 * flags. subscribe installs the callback and sets both flags; close and open
 * switch readiness, but only once subscribe has run; call hands the event to
 * the callback only while ready. The callback is modelled by the log of the
 * events handed to it.
 */
module EcsListeners {

  /** The two flags: m_ready and m_initialized. */
  datatype Flags = Flags(ready: bool, initialized: bool)

  /** A listener nobody has subscribed to yet (both flags taken as false). */
  const Unsubscribed := Flags(false, false)

  /** The operations that touch the flags. */
  datatype Op = Subscribe | Close | Open

  /** The flags after one operation. */
  function Step(f: Flags, op: Op): (r: Flags)
    ensures op == Subscribe ==> r == Flags(true, true)
    ensures op != Subscribe ==> r.initialized == f.initialized
    ensures op != Subscribe && !f.initialized ==> r == f
    ensures op == Close && f.initialized ==> !r.ready
    ensures op == Open && f.initialized ==> r.ready
  {
    match op
    case Subscribe => Flags(true, true)
    case Close => if f.initialized then f.(ready := false) else f
    case Open => if f.initialized then f.(ready := true) else f
  }

  /** The flags after a sequence of operations, in order. */
  function Run(f: Flags, ops: seq<Op>): (r: Flags)
    ensures |ops| > 0 && ops[|ops| - 1] == Subscribe ==> r == Flags(true, true)
    decreases |ops|
  {
    if ops == [] then f else Run(Step(f, ops[0]), ops[1..])
  }

  /** Whether call reaches the callback. */
  predicate Delivers(f: Flags) {
    f.ready
  }

  /**
   * Without a subscribe, close and open do nothing: a listener that was never
   * subscribed never delivers.
   */
  lemma {:induction false} NoDeliveryBeforeSubscribe(ops: seq<Op>)
    requires Subscribe !in ops
    ensures Run(Unsubscribed, ops) == Unsubscribed && !Delivers(Run(Unsubscribed, ops))
  {
    if ops != [] {
      assert Subscribe !in ops[1..] by { assert forall i | 0 <= i < |ops[1..]| :: ops[1..][i] == ops[i + 1]; }
      NoDeliveryBeforeSubscribe(ops[1..]);
    }
  }

  /** Readiness implies initialisation, and every operation keeps it so. */
  lemma {:induction false} ReadyOnlyWhenInitialized(f: Flags, ops: seq<Op>)
    requires f.ready ==> f.initialized
    ensures Run(f, ops).ready ==> Run(f, ops).initialized
    decreases |ops|
  {
    if ops != [] {
      ReadyOnlyWhenInitialized(Step(f, ops[0]), ops[1..]);
    }
  }

  /** Running two sequences one after the other is running their concatenation. */
  lemma {:induction false} RunAppend(f: Flags, ops: seq<Op>, more: seq<Op>)
    ensures Run(f, ops + more) == Run(Run(f, ops), more)
    decreases |ops|
  {
    if ops != [] {
      assert (ops + more)[0] == ops[0] && (ops + more)[1..] == ops[1..] + more;
      RunAppend(Step(f, ops[0]), ops[1..], more);
    } else {
      assert ops + more == more;
    }
  }

  /** Once subscribed, close and open decide readiness: the last of them wins. */
  lemma AfterSubscribeLastWins(f: Flags, before: seq<Op>, after: seq<Op>, last: Op)
    requires last != Subscribe
    ensures var g := Run(f, before + [Subscribe] + after + [last]);
      g.initialized && (g.ready <==> last == Open)
  {
    RunAppend(f, before + [Subscribe] + after, [last]);
    RunAppend(f, before + [Subscribe], after);
    RunAppend(f, before, [Subscribe]);
    StaysInitialized(Flags(true, true), after);
  }

  /** Close and open never clear m_initialized. */
  lemma {:induction false} StaysInitialized(f: Flags, ops: seq<Op>)
    requires f.initialized
    ensures Run(f, ops).initialized
    decreases |ops|
  {
    if ops != [] {
      StaysInitialized(Step(f, ops[0]), ops[1..]);
    }
  }

  class Listener<E> {
    var ready: bool
    var initialized: bool
    /** The events handed to the callback, oldest first. */
    var delivered: seq<E>

    function State(): Flags
      reads this
    {
      Flags(ready, initialized)
    }

    constructor ()
      ensures State() == Unsubscribed && delivered == []
    {
      ready := false;
      initialized := false;
      delivered := [];
    }

    /** subscribe: installs the callback and sets both flags. */
    method Subscribe()
      modifies this
      ensures State() == Step(old(State()), Op.Subscribe) && delivered == old(delivered)
    {
      ready := true;
      initialized := true;
    }

    /** close. */
    method Close()
      modifies this
      ensures State() == Step(old(State()), Op.Close) && delivered == old(delivered)
    {
      if initialized {
        ready := false;
      }
    }

    /** open. */
    method Open()
      modifies this
      ensures State() == Step(old(State()), Op.Open) && delivered == old(delivered)
    {
      if initialized {
        ready := true;
      }
    }

    /** call: the event reaches the callback exactly when the listener is ready. */
    method Call(event: E)
      modifies this
      ensures State() == old(State())
      ensures delivered == (if Delivers(old(State())) then old(delivered) + [event] else old(delivered))
    {
      if ready {
        delivered := delivered + [event];
      }
    }
  }
}
