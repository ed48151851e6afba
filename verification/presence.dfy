/**
 * The card-presence monitor of the MMC driver: the periodic timer callback
 * `tmrfunc` in os/hal/src/mmc_spi.c, seen as a pure step on the driver state
 * and the debounce counter, driven by one reading of the insertion sensor.
 */
module Presence {
  import opened Bytes

  /** The driver states (`mmcstate_t`). */
  datatype State = Uninit | Stop | Wait | Inserted | Ready | Reading | Writing

  /** The two event sources the monitor broadcasts on. */
  datatype Signal = CardInserted | CardRemoved

  /** Consecutive "inserted" readings needed before a card counts as inserted,
      fixed at the driver header's default; a build may configure another. */
  const POLLING_INTERVAL: nat := 10

  /** The part of the driver the monitor reads and writes. */
  datatype Monitor = Monitor(state: State, cnt: nat)

  /** The outcome of one callback: the new monitor state and the event it
      broadcast, if any. */
  datatype Step = Step(after: Monitor, signal: Option<Signal>)

  /** `tmrfunc`. While counting down, an "inserted" reading decrements the
      counter and a "not inserted" reading restarts it; the insertion event is
      raised when the countdown reaches zero. With the counter at zero, a
      "not inserted" reading sends the driver back to WAIT with a full counter
      and raises the removal event. */
  function Debounce(m: Monitor, inserted: bool): (s: Step)
    ensures s.signal == Some(CardInserted) <==> m.cnt > 0 && s.after.cnt == 0
    ensures s.signal == Some(CardRemoved) <==> m.cnt == 0 && s.after.cnt > 0
    ensures s.signal == Some(CardInserted) ==> s.after.state == Inserted
    ensures s.signal == Some(CardRemoved) ==> s.after.state == Wait
    ensures s.signal == None ==> s.after.state == m.state
    ensures !inserted && m.cnt > 0 ==> s.after == m.(cnt := POLLING_INTERVAL)
    ensures inserted ==> s.after.cnt == if m.cnt > 0 then m.cnt - 1 else 0
    ensures !inserted && m.cnt == 0 ==> s == Step(Monitor(Wait, POLLING_INTERVAL), Some(CardRemoved))
    ensures inserted && m.cnt == 0 ==> s == Step(m, None)
  {
    if m.cnt > 0 then
      if inserted then
        if m.cnt - 1 == 0 then Step(Monitor(Inserted, 0), Some(CardInserted))
        else Step(m.(cnt := m.cnt - 1), None)
      else Step(m.(cnt := POLLING_INTERVAL), None)
    else if !inserted then Step(Monitor(Wait, POLLING_INTERVAL), Some(CardRemoved))
    else Step(m, None)
  }

  /** The states the monitor runs in, with the counter non-zero exactly while
      waiting for a card and never above its full value. */
  predicate Coherent(m: Monitor)
  {
    m.state != Uninit && m.state != Stop &&
    (m.state == Wait <==> m.cnt > 0) && m.cnt <= POLLING_INTERVAL
  }

  /** One callback keeps the monitor coherent. */
  lemma DebounceKeepsCoherent(m: Monitor, inserted: bool)
    requires Coherent(m)
    ensures Coherent(Debounce(m, inserted).after)
  {
  }

  /** A run of callbacks: the final monitor state and the events, in order. */
  datatype Trace = Trace(after: Monitor, signals: seq<Signal>)

  function SignalsOf(s: Step): seq<Signal>
  {
    if s.signal.Some? then [s.signal.value] else []
  }

  /** The monitor driven by a sequence of sensor readings. */
  function Run(m: Monitor, readings: seq<bool>): Trace
    decreases |readings|
  {
    if readings == [] then Trace(m, [])
    else
      var s := Debounce(m, readings[0]);
      var rest := Run(s.after, readings[1..]);
      Trace(rest.after, SignalsOf(s) + rest.signals)
  }

  /** Runs compose: the readings may be cut anywhere. */
  lemma {:induction false} RunAppend(m: Monitor, a: seq<bool>, b: seq<bool>)
    ensures Run(m, a + b).after == Run(Run(m, a).after, b).after
    ensures Run(m, a + b).signals == Run(m, a).signals + Run(Run(m, a).after, b).signals
    decreases |a|
  {
    if a == [] {
      assert a + b == b;
    } else {
      assert (a + b)[0] == a[0] && (a + b)[1..] == a[1..] + b;
      var s := Debounce(m, a[0]);
      RunAppend(s.after, a[1..], b);
      assert SignalsOf(s) + (Run(s.after, a[1..]).signals + Run(Run(m, a).after, b).signals)
          == (SignalsOf(s) + Run(s.after, a[1..]).signals) + Run(Run(m, a).after, b).signals;
    }
  }

  /** A run keeps the monitor coherent, and leaves the driver either where it
      was or in WAIT or INSERTED: the monitor never makes a card READY and
      never starts a transfer. */
  lemma {:induction false} RunKeepsCoherent(m: Monitor, readings: seq<bool>)
    requires Coherent(m)
    ensures Coherent(Run(m, readings).after)
    ensures Run(m, readings).after.state in {m.state, Wait, Inserted}
    decreases |readings|
  {
    if readings != [] {
      var s := Debounce(m, readings[0]);
      DebounceKeepsCoherent(m, readings[0]);
      RunKeepsCoherent(s.after, readings[1..]);
    }
  }

  /** k consecutive "inserted" readings from WAIT with k left on the counter
      make the card INSERTED with exactly one insertion event. */
  lemma {:induction false} CountdownCompletes(m: Monitor, k: nat)
    requires m.state == Wait && m.cnt == k && k > 0
    ensures Run(m, seq(k, _ => true)) == Trace(Monitor(Inserted, 0), [CardInserted])
    decreases k
  {
    var readings := seq(k, _ => true);
    if k > 1 {
      assert readings[1..] == seq(k - 1, _ => true);
      CountdownCompletes(m.(cnt := k - 1), k - 1);
    }
  }

  /** Fewer "inserted" readings than the counter holds leave the driver
      waiting, the counter lowered by their number, and no event raised. */
  lemma {:induction false} CountdownPending(m: Monitor, j: nat)
    requires m.state == Wait && j < m.cnt
    ensures Run(m, seq(j, _ => true)) == Trace(m.(cnt := m.cnt - j), [])
    decreases j
  {
    var readings := seq(j, _ => true);
    if j > 0 {
      assert readings[1..] == seq(j - 1, _ => true);
      CountdownPending(m.(cnt := m.cnt - 1), j - 1);
    }
  }

  /** A settled monitor (counter at zero) stays silent while the card is
      reported present; the first "not inserted" reading sends the driver
      back to WAIT with a full counter and raises exactly one removal event. */
  lemma {:induction false} RemovalSignalled(m: Monitor, j: nat)
    requires m.cnt == 0
    ensures Run(m, seq(j, _ => true) + [false]) == Trace(Monitor(Wait, POLLING_INTERVAL), [CardRemoved])
    decreases j
  {
    var readings := seq(j, _ => true) + [false];
    if j == 0 {
      assert readings == [false];
    } else {
      assert readings[0] && readings[1..] == seq(j - 1, _ => true) + [false];
      RemovalSignalled(m, j - 1);
    }
  }

  /** The event expected next from a coherent monitor. */
  function Expected(m: Monitor): Signal
  {
    if m.cnt > 0 then CardInserted else CardRemoved
  }

  function Flip(s: Signal): Signal
  {
    if s == CardInserted then CardRemoved else CardInserted
  }

  /** Events alternate, starting with `first`. */
  predicate Alternates(signals: seq<Signal>, first: Signal)
    decreases |signals|
  {
    signals == [] || (signals[0] == first && Alternates(signals[1..], Flip(first)))
  }

  /** Insertion and removal events strictly alternate: every insertion is
      announced once, and the next event is its removal. */
  lemma {:induction false} SignalsAlternate(m: Monitor, readings: seq<bool>)
    ensures Alternates(Run(m, readings).signals, Expected(m))
    decreases |readings|
  {
    if readings != [] {
      var s := Debounce(m, readings[0]);
      var rest := Run(s.after, readings[1..]);
      SignalsAlternate(s.after, readings[1..]);
      if s.signal.Some? {
        assert Expected(s.after) == Flip(Expected(m));
        assert (SignalsOf(s) + rest.signals)[1..] == rest.signals;
      } else {
        assert Expected(s.after) == Expected(m);
        assert SignalsOf(s) + rest.signals == rest.signals;
      }
    }
  }
}
